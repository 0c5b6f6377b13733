/** Paths of nodes: fdt_get_path and fdt_path_offset. */
module FdtPath {
  import opened Common
  import opened FdtBytes
  import opened FdtTokens
  import opened FdtTree
  import opened FdtView
  import opened FdtChange
  import opened FdtEdit
  import opened FdtOverlay
  import opened FdtInPlace
  import opened FdtPhandle

  const SLASH: byte := 47

  // ----- finding a node by its path -----

  function SkipSlashes(path: Bytes, i: nat): (j: nat)
    requires i <= |path|
    ensures i <= j <= |path| && (j < |path| ==> path[j] != SLASH) && forall k :: i <= k < j ==> path[k] == SLASH
    decreases |path| - i
  {
    if i < |path| && path[i] == SLASH then SkipSlashes(path, i + 1) else i
  }

  /** The names in a path. */
  function Names(path: Bytes, i: nat): seq<Bytes>
    requires i <= |path|
    decreases |path| - i
  {
    var j := SkipSlashes(path, i);
    if j == |path| then [] else [path[j..NextOf(path, SLASH, j)]] + Names(path, NextOf(path, SLASH, j))
  }

  datatype Descent = Nowhere | APath(p: Path)

  /** From child to child by name. */
  function Descend(n: Node, names: seq<Bytes>): Descent
    decreases names
  {
    if names == [] then APath([])
    else
      var c := FindKid(n.kids, names[0]);
      if c == |n.kids| then Nowhere
      else
        match Descend(n.kids[c], names[1..])
        case Nowhere => Nowhere
        case APath(p) => APath([c] + p)
  }

  /** How far one has come: at q, with names still to go. */
  ghost predicate Along(root: Node, path: Bytes, q: Path, i: nat) {
    && i <= |path| && Has(root, q)
    && Descend(root, Names(path, 0)) == match Descend(At(root, q), Names(path, i)) case Nowhere => Nowhere case APath(p) => APath(q + p)
  }

  lemma AlongStart(root: Node, path: Bytes)
    ensures Along(root, path, [], 0)
  {
    if Descend(root, Names(path, 0)).APath? {
      assert [] + Descend(root, Names(path, 0)).p == Descend(root, Names(path, 0)).p;
    }
  }

  lemma AlongEnd(root: Node, path: Bytes, q: Path, i: nat)
    requires Along(root, path, q, i) && SkipSlashes(path, i) == |path|
    ensures Descend(root, Names(path, 0)) == APath(q)
  {
    assert q + [] == q;
  }

  lemma AlongStep(root: Node, path: Bytes, q: Path, i: nat, j: nat, e: nat)
    requires Along(root, path, q, i) && j == SkipSlashes(path, i) && j < |path| && e == NextOf(path, SLASH, j)
    ensures j < e <= |path| && Has(root, q)
    ensures var c := FindKid(At(root, q).kids, path[j..e]);
      && c <= |At(root, q).kids|
      && (c == |At(root, q).kids| ==> Descend(root, Names(path, 0)) == Nowhere)
      && (c < |At(root, q).kids| ==> Along(root, path, q + [c], e))
  {
    hide *;
    AlongParts(root, path, q, i);
    var n, c := At(root, q), FindKid(At(root, q).kids, path[j..e]);
    NamesStep(path, i, j, e);
    DescendStep(n, path[j..e], Names(path, e));
    if c < |n.kids| {
      PutChild(root, q, c, n);
      var d := Descend(n.kids[c], Names(path, e));
      if d.APath? { assert q + ([c] + d.p) == (q + [c]) + d.p; }
      AlongFrom(root, path, q + [c], e);
    }
  }

  lemma NamesStep(path: Bytes, i: nat, j: nat, e: nat)
    requires i <= |path| && j == SkipSlashes(path, i) && j < |path| && e == NextOf(path, SLASH, j)
    ensures j < e <= |path| && Names(path, i) == [path[j..e]] + Names(path, e)
  {
  }

  lemma DescendStep(n: Node, name: Bytes, names: seq<Bytes>)
    ensures var c := FindKid(n.kids, name);
      && c <= |n.kids|
      && (c == |n.kids| ==> Descend(n, [name] + names) == Nowhere)
      && (c < |n.kids| && Descend(n.kids[c], names).Nowhere? ==> Descend(n, [name] + names) == Nowhere)
      && (c < |n.kids| && Descend(n.kids[c], names).APath? ==> Descend(n, [name] + names) == APath([c] + Descend(n.kids[c], names).p))
  {
    assert ([name] + names)[0] == name && ([name] + names)[1..] == names;
  }

  lemma AlongParts(root: Node, path: Bytes, q: Path, i: nat)
    requires Along(root, path, q, i)
    ensures i <= |path| && Has(root, q)
    ensures Descend(At(root, q), Names(path, i)).Nowhere? ==> Descend(root, Names(path, 0)) == Nowhere
    ensures Descend(At(root, q), Names(path, i)).APath? ==> Descend(root, Names(path, 0)) == APath(q + Descend(At(root, q), Names(path, i)).p)
  {
  }

  lemma AlongFrom(root: Node, path: Bytes, q: Path, i: nat)
    requires i <= |path| && Has(root, q)
    requires Descend(At(root, q), Names(path, i)).Nowhere? ==> Descend(root, Names(path, 0)) == Nowhere
    requires Descend(At(root, q), Names(path, i)).APath? ==> Descend(root, Names(path, 0)) == APath(q + Descend(At(root, q), Names(path, i)).p)
    ensures Along(root, path, q, i)
  {
  }

  /** fdt_path_offset_namelen for a path that is no alias */
  method PathOffset(b: Blob, path: Bytes) returns (r: int, ghost x: nat)
    requires b.Valid() && b.IsNode(0, []) && path != [] && path[0] == SLASH
    ensures r >= 0 ==> Descend(b.root, Names(path, 0)).APath? && b.IsNode(r, Descend(b.root, Names(path, 0)).p)
    ensures r < 0 ==> r == -ERR_NOTFOUND && Descend(b.root, Names(path, 0)).Nowhere?
  {
    hide *;
    ErrorsDiffer();
    b.ValidParts();
    AlongStart(b.root, path);
    Slash();
    ghost var q: Path := [];
    x := 0;
    var offset, p := 0, 0;
    while p < |path|
      invariant 0 <= p <= |path| && 0 <= offset && Along(b.root, path, q, p) && b.IsNode(offset, q)
      decreases |path| - p
    {
      ghost var i := p;
      SkipIs(path, p);
      while path[p] == SLASH
        invariant i <= p < |path| && SkipSlashes(path, p) == SkipSlashes(path, i)
        decreases |path| - p
      {
        SkipIs(path, p);
        p := p + 1;
        if p == |path| {
          SkipIs(path, p);
          AlongEnd(b.root, path, q, i);
          return offset, x;
        }
      }
      SkipIs(path, p);
      var e := NextOf(path, SLASH, p);
      AlongStep(b.root, path, q, i, p, e);
      offset, x := b.SubnodeOffset(offset, path[p..e], q);
      if offset < 0 {
        return offset, x;
      }
      ghost var c := FindKid(At(b.root, q).kids, path[p..e]);
      KidIsNode(b, offset, q, c, x);
      q := q + [c];
      p := e;
    }
    SkipIs(path, p);
    AlongEnd(b.root, path, q, p);
    r := offset;
  }

  lemma Slash()
    ensures SLASH == 47
  {
  }

  lemma SkipIs(path: Bytes, p: nat)
    requires p <= |path|
    ensures p < |path| && path[p] == SLASH ==> SkipSlashes(path, p) == SkipSlashes(path, p + 1)
    ensures p < |path| && path[p] != SLASH ==> SkipSlashes(path, p) == p
    ensures p == |path| ==> SkipSlashes(path, p) == |path|
  {
  }

  // ----- the path of a node -----

  /** The names down to the node at q, each with a '/' behind it. */
  function Joined(root: Node, q: Path): Bytes
    requires Has(root, q)
    decreases |q|
  {
    if q == [] then root.name + [SLASH]
    else
      HasPrefix(root, q, |q| - 1);
      Joined(root, q[..|q| - 1]) + At(root, q).name + [SLASH]
  }

  lemma {:induction false} HasPrefix(n: Node, q: Path, k: nat)
    requires Has(n, q) && k <= |q|
    ensures Has(n, q[..k])
    decreases q
  {
    if k > 0 {
      HasPrefix(n.kids[q[0]], q[1..], k - 1);
      assert q[..k][1..] == q[1..][..k - 1];
    }
  }

  /** What fdt_get_path says: no '/' at the end, except for the root. */
  function PathOf(root: Node, q: Path): Bytes
    requires Has(root, q)
  {
    var s := Joined(root, q);
    if |s| > 1 then s[..|s| - 1] else s
  }

  /** No name is empty or has a '/' in it; among the children of a node no name
      stands for another: they differ, and none is another with a unit address. */
  ghost predicate WellNamed(n: Node)
    decreases n
  {
    forall i :: 0 <= i < |n.kids| ==>
      && n.kids[i].name != [] && SLASH !in n.kids[i].name && WellNamed(n.kids[i])
      && forall j :: 0 <= j < |n.kids| && j != i ==> !NameEq(n.kids[j].name, n.kids[i].name)
  }

  /** No name below the root has a '/' in it. */
  ghost predicate Slashless(n: Node)
    decreases n
  {
    forall i :: 0 <= i < |n.kids| ==> SLASH !in n.kids[i].name && Slashless(n.kids[i])
  }

  lemma {:induction false} WellSlashless(n: Node)
    requires WellNamed(n)
    ensures Slashless(n)
    decreases n
  {
    forall i | 0 <= i < |n.kids| ensures SLASH !in n.kids[i].name && Slashless(n.kids[i]) {
      WellSlashless(n.kids[i]);
    }
  }

  /** The names of the nodes on the way to q. */
  function NamesOf(n: Node, q: Path): seq<Bytes>
    requires Has(n, q)
    decreases q
  {
    if q == [] then [] else [n.kids[q[0]].name] + NamesOf(n.kids[q[0]], q[1..])
  }

  lemma {:induction false} DescendBack(n: Node, q: Path)
    requires Has(n, q) && WellNamed(n)
    ensures Descend(n, NamesOf(n, q)) == APath(q)
    decreases q
  {
    if q != [] {
      var c := q[0];
      SelfName(n.kids[c].name);
      FindKidIs(n.kids, n.kids[c].name, c);
      DescendBack(n.kids[c], q[1..]);
      assert NamesOf(n, q)[1..] == NamesOf(n.kids[c], q[1..]);
      assert [c] + q[1..] == q;
    }
  }

  function Slashed(names: seq<Bytes>): Bytes {
    if names == [] then [] else [SLASH] + names[0] + Slashed(names[1..])
  }

  ghost predicate Plain(names: seq<Bytes>) {
    forall i :: 0 <= i < |names| ==> names[i] != [] && SLASH !in names[i]
  }

  lemma SkipAt(path: Bytes, i: nat, j: nat)
    requires i <= j <= |path| && (forall k :: i <= k < j ==> path[k] == SLASH) && (j < |path| ==> path[j] != SLASH)
    ensures SkipSlashes(path, i) == j
  {
  }

  lemma NextAt(path: Bytes, i: nat, j: nat)
    requires i <= j <= |path| && (forall k :: i <= k < j ==> path[k] != SLASH) && (j < |path| ==> path[j] == SLASH)
    ensures NextOf(path, SLASH, i) == j
  {
  }

  /** The names are read back from where they are written. */
  lemma {:induction false} NamesBack(pre: Bytes, names: seq<Bytes>)
    requires Plain(names)
    ensures Names(pre + Slashed(names), |pre|) == names
    decreases names
  {
    var path := pre + Slashed(names);
    if names == [] {
      SkipAt(path, |pre|, |path|);
    } else {
      var s, rest := names[0], Slashed(names[1..]);
      var more := pre + ([SLASH] + s);
      assert path == more + rest;
      assert forall k :: 0 <= k < |s| ==> path[|pre| + 1 + k] == s[k];
      assert rest != [] ==> rest[0] == SLASH;
      SkipAt(path, |pre|, |pre| + 1);
      NextAt(path, |pre| + 1, |more|);
      assert path[|pre| + 1..|more|] == s;
      NamesBack(more, names[1..]);
      assert Names(path, |pre|) == [s] + names[1..];
    }
  }

  lemma {:induction false} PlainNames(n: Node, q: Path)
    requires Has(n, q) && WellNamed(n)
    ensures Plain(NamesOf(n, q))
    decreases q
  {
    if q != [] { PlainNames(n.kids[q[0]], q[1..]); }
  }

  lemma {:induction false} NamesOfLast(n: Node, q: Path)
    requires Has(n, q) && q != []
    ensures Has(n, q[..|q| - 1]) && NamesOf(n, q) == NamesOf(n, q[..|q| - 1]) + [At(n, q).name]
    decreases q
  {
    HasPrefix(n, q, |q| - 1);
    if |q| > 1 {
      NamesOfLast(n.kids[q[0]], q[1..]);
      assert q[..|q| - 1][1..] == q[1..][..|q| - 2];
    } else {
      assert q[..0] == [] && q[1..] == [];
    }
  }

  lemma {:induction false} SlashedLast(names: seq<Bytes>, s: Bytes)
    ensures Slashed(names + [s]) == Slashed(names) + [SLASH] + s
    decreases names
  {
    if names == [] {
      assert [] + [s] == [s] && [s][1..] == [];
    } else {
      assert (names + [s])[1..] == names[1..] + [s];
      SlashedLast(names[1..], s);
    }
  }

  /** With a nameless root, the joined names are the names behind slashes, and one
      slash more. */
  lemma {:induction false} JoinedIs(root: Node, q: Path)
    requires Has(root, q) && root.name == []
    ensures Joined(root, q) == Slashed(NamesOf(root, q)) + [SLASH]
    decreases |q|
  {
    if q != [] {
      NamesOfLast(root, q);
      JoinedIs(root, q[..|q| - 1]);
      SlashedLast(NamesOf(root, q[..|q| - 1]), At(root, q).name);
    }
  }

  /** The path of a node leads back to the node. */
  lemma PathRoundTrip(root: Node, q: Path)
    requires Has(root, q) && WellNamed(root) && root.name == []
    ensures PathOf(root, q) != [] && PathOf(root, q)[0] == SLASH
    ensures Descend(root, Names(PathOf(root, q), 0)) == APath(q)
  {
    hide Joined, Descend, WellNamed, Names;
    var names := NamesOf(root, q);
    JoinedIs(root, q);
    PlainNames(root, q);
    DescendBack(root, q);
    if q == [] {
      assert Slashed(names) + [SLASH] == [SLASH];
      NamesOne();
    } else {
      assert names != [];
      assert (Slashed(names) + [SLASH])[..|Slashed(names)|] == Slashed(names);
      NamesBack([], names);
      assert [] + Slashed(names) == Slashed(names);
    }
  }

  lemma NamesOne()
    ensures Names([SLASH], 0) == []
  {
    SkipAt([SLASH], 0, 1);
  }

  // ----- walking the nodes in order -----

  ghost predicate NoneBegins(ts: seq<Token>, i: nat, j: nat)
    requires j <= |ts|
  {
    forall y :: i <= y < j ==> !ts[y].BeginNode?
  }

  /** The path of the next node: a child, or a later child of a node further up. */
  ghost predicate NextPath(q: Path, r: Path) {
    0 < |r| <= |q| + 1 && r[..|r| - 1] == q[..|r| - 1]
  }

  lemma {:induction false} EmptyView(ts: seq<Token>, strs: Bytes)
    requires View(ts, strs) == []
    ensures forall y :: 0 <= y < |ts| ==> !ts[y].BeginNode?
  {
    if ts != [] {
      EmptyView(ts[1..], strs);
      assert forall y :: 0 < y < |ts| ==> ts[y] == ts[1..][y - 1];
    }
  }

  /** A node has closed: what follows are the later children of its parent. */
  lemma Closed(ts: seq<Token>, strs: Bytes, root: Node, pp: Path, x: nat)
    requires Has(root, pp) && x <= |ts| && View(ts[x..], strs) == After(root, pp)
    ensures pp == [] ==> NoneBegins(ts, x, |ts|)
    ensures pp != [] ==> Has(root, pp[..|pp| - 1]) && Ahead(ts, strs, root, pp[..|pp| - 1], x, 0, pp[|pp| - 1] + 1)
  {
    if pp == [] {
      EmptyView(ts[x..], strs);
      assert forall y :: x <= y < |ts| ==> ts[y] == ts[x..][y - x];
    } else {
      var up, c := pp[..|pp| - 1], pp[|pp| - 1];
      assert pp == up + [c];
      HasPrefix(root, pp, |pp| - 1);
      HasKid(root, up, c);
      AfterChild(root, up, c);
      AheadOutside(ts, strs, root, up, x, c + 1);
    }
  }

  lemma NoneMore(ts: seq<Token>, i: nat, j: nat)
    requires i <= j < |ts| && NoneBegins(ts, i, j) && !ts[j].BeginNode?
    ensures NoneBegins(ts, i, j + 1)
  {
  }

  lemma NoneJoin(ts: seq<Token>, i: nat, j: nat)
    requires i <= j <= |ts| && NoneBegins(ts, i, j) && NoneBegins(ts, j, |ts|)
    ensures NoneBegins(ts, i, |ts|)
  {
  }

  lemma NoneYet(ts: seq<Token>, i: nat)
    requires i <= |ts|
    ensures NoneBegins(ts, i, i)
  {
  }

  /** How the walk stands: behind the c-th child of the node at pp. */
  ghost predicate Behind0(q: Path, pp: Path) { |pp| <= |q| && pp == q[..|pp|] }

  lemma Behind0Up(q: Path, pp: Path)
    requires Behind0(q, pp)
    ensures forall c: nat :: NextPath(q, pp + [c])
    ensures pp != [] ==> Behind0(q, pp[..|pp| - 1])
  {
    forall c: nat ensures NextPath(q, pp + [c]) {
      assert (pp + [c])[..|pp|] == pp;
    }
  }

  /** fdt_next_node, with the path of the node that it finds. */
  method NextInOrder(b: Blob, start: nat, depth: nat, ghost q: Path, ghost x0: nat) returns (offset: nat, d: int, ghost r: Path, ghost x: nat)
    requires b.Valid() && NodeAt(b.toks, b.Strings(), b.root, q, x0) && start == Total(b.toks[..x0]) && depth == |q|
    ensures d >= 0 ==> NodeAt(b.toks, b.Strings(), b.root, r, x) && x0 < x < |b.toks| && offset == Total(b.toks[..x]) && d == |r|
    ensures d >= 0 ==> NextPath(q, r) && NoneBegins(b.toks, x0 + 1, x)
    ensures d < 0 ==> x0 < |b.toks| && NoneBegins(b.toks, x0 + 1, |b.toks|)
  {
    hide *;
    b.ValidParts();
    Codes();
    NodeParts(b.toks, b.Strings(), b.root, q, x0);
    AheadStart(b.toks, b.Strings(), b.root, q, x0);
    var tag, next := b.TagAt(start, x0);
    x := x0 + 1;
    NoneYet(b.toks, x);
    d := depth;
    ghost var pp, c: nat := q, 0;
    Behind0Self(q);
    while true
      invariant x0 < x <= |b.toks| && next == Total(b.toks[..x]) && d == |pp| && Behind0(q, pp)
      invariant Ahead(b.toks, b.Strings(), b.root, pp, x, 0, c) && NoneBegins(b.toks, x0 + 1, x)
      decreases |b.toks| - x
    {
      AheadStep(b.toks, b.Strings(), b.root, pp, x, 0, c);
      AheadHas(b.toks, b.Strings(), b.root, pp, x, 0, c);
      CodeOf(b.toks[x]);
      Behind0Up(q, pp);
      offset := next;
      tag, next := b.TagAt(offset, x);
      if tag == 1 {
        d := d + 1;
        r := pp + [c];
        return;
      }
      NoneMore(b.toks, x0 + 1, x);
      x := x + 1;
      if tag == 2 {
        Closed(b.toks, b.Strings(), b.root, pp, x);
        d := d - 1;
        if d < 0 {
          NoneJoin(b.toks, x0 + 1, x);
          r := q;
          return;
        }
        pp, c := pp[..|pp| - 1], pp[|pp| - 1] + 1;
      }
    }
  }

  lemma Behind0Self(q: Path)
    ensures Behind0(q, q)
  {
  }

  // ----- fdt_get_path -----

  /** The names of the first k nodes on the way to q, joined. */
  function Level(root: Node, q: Path, k: nat): Bytes
    requires Has(root, q) && k <= |q| + 1
  {
    if k == 0 then [] else
      HasPrefix(root, q, k - 1);
      Joined(root, q[..k - 1])
  }

  /** As many of the nodes on the way to q are stored as the buffer takes, up to m
      of them. */
  ghost predicate Stored(root: Node, q: Path, m: nat, k: nat, s: Bytes, buflen: nat) {
    && Has(root, q) && k <= m <= |q| + 1 && s == Level(root, q, k) && |s| <= buflen
    && (k < m ==> |Level(root, q, k + 1)| > buflen)
  }

  lemma LevelStep(root: Node, q: Path, k: nat)
    requires Has(root, q) && 0 < k <= |q|
    ensures Has(root, q[..k]) && Level(root, q, k + 1) == Level(root, q, k) + (At(root, q[..k]).name + [SLASH])
  {
    HasPrefix(root, q, k);
    HasPrefix(root, q, k - 1);
    assert q[..k][..k - 1] == q[..k - 1];
  }

  lemma LevelEnds(root: Node, q: Path, k: nat)
    requires Has(root, q) && 0 < k <= |q| + 1
    ensures Level(root, q, k) != [] && Level(root, q, k)[|Level(root, q, k)| - 1] == SLASH
  {
    HasPrefix(root, q, k - 1);
  }

  lemma {:induction false} LevelGrows(root: Node, q: Path, k: nat, m: nat)
    requires Has(root, q) && k <= m <= |q| + 1
    ensures |Level(root, q, k)| <= |Level(root, q, m)|
  {
    if k < m {
      LevelGrows(root, q, k, m - 1);
      if m > 1 { LevelStep(root, q, m - 1); }
    }
  }

  /** Levels that two paths share. */
  lemma LevelShared(root: Node, q: Path, r: Path, k: nat)
    requires Has(root, q) && Has(root, r) && NextPath(q, r) && k <= |r|
    ensures k <= |q| + 1 && Level(root, r, k) == Level(root, q, k)
  {
    if k > 0 {
      HasPrefix(root, q, k - 1);
      assert r[..k - 1] == r[..|r| - 1][..k - 1] && q[..k - 1] == q[..|r| - 1][..k - 1];
    }
  }

  lemma {:induction false} PlainAt(n: Node, q: Path)
    requires Has(n, q) && Slashless(n) && q != []
    ensures SLASH !in At(n, q).name
    decreases q
  {
    if |q| > 1 { PlainAt(n.kids[q[0]], q[1..]); } else { assert q[1..] == []; }
  }

  /** The loop that takes the last name off the buffer again. */
  method Pop(s: Bytes, ghost up: Bytes, ghost name: Bytes) returns (r: Bytes)
    requires s == up + (name + [SLASH]) && up != [] && up[|up| - 1] == SLASH && SLASH !in name
    ensures r == up
  {
    var p := |s| - 1;
    assert forall i :: |up| <= i < |s| - 1 ==> s[i] == name[i - |up|];
    while s[p - 1] != SLASH
      invariant |up| <= p < |s|
      decreases p
    {
      p := p - 1;
    }
    assert s[..|up|] == up;
    r := s[..p];
  }

  lemma StoredParts(root: Node, q: Path, m: nat, k: nat, s: Bytes, buflen: nat)
    requires Stored(root, q, m, k, s, buflen)
    ensures Has(root, q) && k <= m <= |q| + 1 && s == Level(root, q, k) && |s| <= buflen
    ensures k < m ==> |Level(root, q, k + 1)| > buflen
  {
  }

  /** One name is taken off. */
  lemma StoredPop(root: Node, q: Path, m: nat, k: nat, s: Bytes, buflen: nat)
    requires Stored(root, q, m, k, s, buflen) && 1 < k
    ensures Has(root, q) && Has(root, q[..k - 1]) && s == Level(root, q, k - 1) + (At(root, q[..k - 1]).name + [SLASH])
    ensures Level(root, q, k - 1) != [] && Level(root, q, k - 1)[|Level(root, q, k - 1)| - 1] == SLASH
    ensures Stored(root, q, k - 1, k - 1, Level(root, q, k - 1), buflen)
  {
    LevelStep(root, q, k - 1);
    LevelEnds(root, q, k - 1);
  }

  /** What is stored for one node serves the next one up to its parent. */
  lemma StoredNext(root: Node, q: Path, r: Path, m: nat, k: nat, s: Bytes, buflen: nat)
    requires Stored(root, q, m, k, s, buflen) && Has(root, r) && NextPath(q, r) && k <= |r| && (k < |r| ==> m == |q| + 1)
    ensures Stored(root, r, |r|, k, s, buflen)
  {
    LevelShared(root, q, r, k);
    if k < |r| { LevelShared(root, q, r, k + 1); }
  }

  /** The node's own name is put behind, if there is room. */
  lemma StoredPush(root: Node, q: Path, k: nat, s: Bytes, buflen: nat)
    requires Stored(root, q, |q|, k, s, buflen)
    ensures Has(root, q) && (k < |q| ==> Stored(root, q, |q| + 1, k, s, buflen))
    ensures k == |q| && |s| + |At(root, q).name| + 1 <= buflen ==> Stored(root, q, |q| + 1, |q| + 1, s + At(root, q).name + [SLASH], buflen)
    ensures k == |q| && |s| + |At(root, q).name| + 1 > buflen ==> Stored(root, q, |q| + 1, k, s, buflen)
  {
    if k == |q| {
      if q != [] {
        LevelStep(root, q, k);
        assert q[..k] == q;
      } else {
        assert q[..0] == q;
      }
    }
  }

  /** All of the way to q is stored just when its path fits. */
  lemma StoredAll(root: Node, q: Path, k: nat, s: Bytes, buflen: nat)
    requires Stored(root, q, |q| + 1, k, s, buflen) && buflen >= 2
    ensures Has(root, q) && (k == |q| + 1 <==> |PathOf(root, q)| + 1 <= buflen)
    ensures k == |q| + 1 ==> s != [] && PathOf(root, q) == if |s| > 1 then s[..|s| - 1] else s
  {
    assert q[..|q|] == q;
    LevelGrows(root, q, 1, |q| + 1);
    if k <= |q| { LevelGrows(root, q, k + 1, |q| + 1); }
    RootOnly(root, q);
  }

  lemma RootOnly(root: Node, q: Path)
    requires Has(root, q)
    ensures |Joined(root, q)| >= 1 && (|Joined(root, q)| == 1 ==> |PathOf(root, q)| == 1)
    ensures |Joined(root, q)| > 1 ==> |PathOf(root, q)| + 1 == |Joined(root, q)|
  {
  }

  /** fdt_get_path: the path of the node, if a buffer of this size holds it and a
      zero byte. */
  method GetPath(b: Blob, nodeoffset: nat, buflen: nat, ghost p: Path) returns (err: int, path: Bytes)
    requires b.Valid() && b.IsNode(0, []) && b.IsNode(nodeoffset, p) && Slashless(b.root)
    ensures Has(b.root, p)
    ensures err == if buflen < 2 || buflen < |PathOf(b.root, p)| + 1 then -ERR_NOSPACE else 0
    ensures err == 0 ==> path == PathOf(b.root, p)
  {
    hide *;
    ErrorsDiffer();
    b.ValidParts();
    ghost var root := b.root;
    ghost var xt := NodeIndex(b, nodeoffset, p);
    ghost var x := NodeIndex(b, 0, []);
    NodeParts(b.toks, b.Strings(), root, p, xt);
    NodeParts(b.toks, b.Strings(), root, [], x);
    path := [];
    if buflen < 2 {
      return -3, path;
    }
    var offset: nat, depth: int, pdepth: nat := 0, 0, 0;
    ghost var q: Path := [];
    FirstNode(b.toks, b.Strings(), root, x, xt, p);
    StoredNothing(root, buflen);
    while true
      invariant x <= xt < |b.toks| && 0 <= depth == |q| && offset == Total(b.toks[..x]) && NodeAt(b.toks, b.Strings(), root, q, x)
      invariant Stored(root, q, |q|, pdepth, path, buflen)
      decreases xt - x
    {
      NodeParts(b.toks, b.Strings(), root, q, x);
      StoredPush(root, q, pdepth, path, buflen);
      StoredParts(root, q, |q|, pdepth, path, buflen);
      if pdepth >= depth {
        var name := GetName(b, offset, x);
        if |path| + |name| + 1 <= buflen {
          path := path + name + [47];
          pdepth := pdepth + 1;
        }
      }
      Slash();
      OffsetOrder(b.toks, x, xt);
      if offset == nodeoffset {
        SameNode(b.toks, b.Strings(), root, q, p, x);
        StoredAll(root, q, pdepth, path, buflen);
        StoredParts(root, q, |q| + 1, pdepth, path, buflen);
        if pdepth < depth + 1 {
          return -3, path;
        }
        if |path| > 1 {
          path := path[..|path| - 1];
        }
        return 0, path;
      }
      ghost var q0, x0 := q, x;
      offset, depth, q, x := NextInOrder(b, offset, depth, q, x);
      if depth < 0 { NoneAt(b.toks, x0 + 1, |b.toks|, xt); }
      if x > xt { NoneAt(b.toks, x0 + 1, x, xt); }
      NodeParts(b.toks, b.Strings(), root, q, x);
      pdepth, path := PopTo(root, q0, q, pdepth, path, buflen, depth);
    }
  }

  /** The loop that takes names off until the parent of the node is on top. */
  method PopTo(ghost root: Node, ghost q0: Path, ghost q: Path, pdepth0: nat, path0: Bytes, buflen: nat, depth: nat)
    returns (pdepth: nat, path: Bytes)
    requires Stored(root, q0, |q0| + 1, pdepth0, path0, buflen) && Has(root, q) && NextPath(q0, q) && depth == |q| && Slashless(root)
    ensures Stored(root, q, |q|, pdepth, path, buflen)
  {
    hide *;
    NextPathIs(q0, q);
    pdepth, path := pdepth0, path0;
    ghost var m: nat := |q0| + 1;
    while pdepth > depth
      invariant Stored(root, q0, m, pdepth, path, buflen) && (pdepth < depth ==> m == |q0| + 1) && 0 < depth
      decreases pdepth
    {
      StoredPop(root, q0, m, pdepth, path, buflen);
      StoredParts(root, q0, m, pdepth, path, buflen);
      PlainAt(root, q0[..pdepth - 1]);
      path := Pop(path, Level(root, q0, pdepth - 1), At(root, q0[..pdepth - 1]).name);
      pdepth := pdepth - 1;
      m := pdepth;
    }
    StoredNext(root, q0, q, m, pdepth, path, buflen);
  }

  lemma NextPathIs(q: Path, r: Path)
    requires NextPath(q, r)
    ensures 0 < |r| <= |q| + 1
  {
  }

  lemma StoredNothing(root: Node, buflen: nat)
    ensures Stored(root, [], 0, 0, [], buflen)
  {
  }

  lemma FirstNode(ts: seq<Token>, strs: Bytes, root: Node, x: nat, xt: nat, p: Path)
    requires NodeAt(ts, strs, root, [], x) && NodeAt(ts, strs, root, p, xt)
    ensures x <= xt
  {
    if xt < x {
      ViewCut(ts, xt, x, strs);
      ViewStep(ts, xt, strs);
      ViewCut(ts, xt, xt + 1, strs);
      MeaningOne(ts[xt], strs);
      ViewGrows(ts, xt + 1, x, strs);
    }
  }

  lemma OffsetOrder(ts: seq<Token>, x: nat, xt: nat)
    requires x < |ts| && xt < |ts|
    ensures Total(ts[..x]) == Total(ts[..xt]) <==> x == xt
  {
    if Total(ts[..x]) == Total(ts[..xt]) { TotalOnce(ts, x, xt); }
  }

  lemma SameNode(ts: seq<Token>, strs: Bytes, root: Node, q: Path, p: Path, x: nat)
    requires NodeAt(ts, strs, root, q, x) && NodeAt(ts, strs, root, p, x)
    ensures q == p
  {
    SameBefore(root, q, p);
  }

  lemma NoneAt(ts: seq<Token>, i: nat, j: nat, y: nat)
    requires j <= |ts| && NoneBegins(ts, i, j) && y < |ts| && ts[y].BeginNode?
    ensures !(i <= y < j)
  {
  }

  lemma OnePlace(ts: seq<Token>, strs: Bytes, root: Node, p: Path, i: nat, j: nat)
    requires NodeAt(ts, strs, root, p, i) && NodeAt(ts, strs, root, p, j)
    ensures i == j
  {
    if i < j { NotEarlier(ts, strs, root, p, i, j); }
    if j < i { NotEarlier(ts, strs, root, p, j, i); }
  }

  lemma NotEarlier(ts: seq<Token>, strs: Bytes, root: Node, p: Path, i: nat, j: nat)
    requires NodeAt(ts, strs, root, p, i) && NodeAt(ts, strs, root, p, j)
    ensures j <= i
  {
    if i < j {
      ViewCut(ts, i, j, strs);
      ViewStep(ts, i, strs);
      ViewCut(ts, i, i + 1, strs);
      MeaningOne(ts[i], strs);
      ViewGrows(ts, i + 1, j, strs);
    }
  }

  /** The round trip: what fdt_path_offset finds by the path that fdt_get_path
      gives for a node is the node's offset. */
  lemma PathFindsNode(b: Blob, p: Path, offset: nat, r: nat)
    requires b.Valid() && b.IsNode(offset, p) && Has(b.root, p) && WellNamed(b.root) && b.root.name == []
    requires var d := Descend(b.root, Names(PathOf(b.root, p), 0)); d.APath? ==> b.IsNode(r, d.p)
    ensures PathOf(b.root, p) != [] && PathOf(b.root, p)[0] == SLASH
    ensures Descend(b.root, Names(PathOf(b.root, p), 0)) == APath(p) && r == offset
  {
    hide *;
    PathRoundTrip(b.root, p);
    var i := NodeIndex(b, offset, p);
    var j := NodeIndex(b, r, p);
    b.ValidParts();
    OnePlace(b.toks, b.Strings(), b.root, p, i, j);
  }

  /** The two calls, one after the other. */
  method PathBack(b: Blob, nodeoffset: nat, buflen: nat, ghost p: Path) returns (err: int, r: int)
    requires b.Valid() && b.IsNode(0, []) && b.IsNode(nodeoffset, p) && WellNamed(b.root) && b.root.name == []
    ensures Has(b.root, p) && (err == 0 <==> buflen >= 2 && buflen > |PathOf(b.root, p)|)
    ensures err == 0 ==> r == nodeoffset
  {
    hide *;
    ErrorsDiffer();
    WellSlashless(b.root);
    var path;
    err, path := GetPath(b, nodeoffset, buflen, p);
    r := err;
    if err == 0 {
      PathRoundTrip(b.root, p);
      ghost var x;
      r, x := PathOffset(b, path);
      PathFindsNode(b, p, nodeoffset, r);
    }
  }
}
