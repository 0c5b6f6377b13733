/** Merging one tree over another: overlay_apply_node. */
module FdtOverlay {
  import opened Common
  import opened FdtBytes
  import opened FdtTokens
  import opened FdtTree
  import opened FdtView
  import opened FdtChange
  import opened FdtEdit

  // ----- what a merge is -----

  /** The properties ps set in turn. */
  function MergeProps(n: Node, ps: seq<NodeProp>): Node {
    if ps == [] then n
    else
      var q := ps[|ps| - 1];
      FdtTree.SetProp(MergeProps(n, ps[..|ps| - 1]), q.name, q.value)
  }

  /** o's properties override n's, and each of its children is merged into the
      child that its name finds, or into a new one in front. */
  function Merge(n: Node, o: Node): Node
    decreases o, 2
  {
    MergeKids(MergeProps(n, o.props), o.kids)
  }

  function MergeKids(n: Node, ks: seq<Node>): Node
    decreases ks, 1
  {
    if ks == [] then n else MergeKid(MergeKids(n, ks[..|ks| - 1]), ks[|ks| - 1])
  }

  function MergeKid(n: Node, k: Node): Node
    decreases k, 3
  {
    var c := FindKid(n.kids, k.name);
    if c < |n.kids| then n.(kids := n.kids[c := Merge(n.kids[c], k)])
    else n.(kids := [Merge(Node(k.name, [], []), k)] + n.kids)
  }

  // ----- what is read after a merge -----

  /** The last value that ps give a name. */
  function LastValue(ps: seq<NodeProp>, name: Bytes): StringResult {
    if ps == [] then Failed(-ERR_NOTFOUND)
    else if ps[|ps| - 1].name == name then Found(ps[|ps| - 1].value)
    else LastValue(ps[..|ps| - 1], name)
  }

  lemma {:induction false} MergePropsReads(n: Node, ps: seq<NodeProp>, name: Bytes)
    ensures Lookup(MergeProps(n, ps), name) == if LastValue(ps, name).Found? then LastValue(ps, name) else Lookup(n, name)
    ensures MergeProps(n, ps).kids == n.kids && MergeProps(n, ps).name == n.name
  {
    if ps != [] {
      var q := ps[|ps| - 1];
      MergePropsReads(n, ps[..|ps| - 1], name);
      SetPropReads(MergeProps(n, ps[..|ps| - 1]), q.name, q.value, name);
    }
  }

  lemma {:induction false} MergeKidsProps(n: Node, ks: seq<Node>)
    ensures MergeKids(n, ks).props == n.props && MergeKids(n, ks).name == n.name
  {
    if ks != [] { MergeKidsProps(n, ks[..|ks| - 1]); }
  }

  /** A property reads as the overlay has it, or as before where the overlay has
      none. */
  lemma MergeReads(n: Node, o: Node, name: Bytes)
    ensures Lookup(Merge(n, o), name) == if LastValue(o.props, name).Found? then LastValue(o.props, name) else Lookup(n, name)
    ensures Merge(n, o).name == n.name
  {
    MergePropsReads(n, o.props, name);
    MergeKidsProps(MergeProps(n, o.props), o.kids);
  }

  datatype MaybeNode = NoNode | ANode(n: Node)

  function KidNamed(kids: seq<Node>, name: Bytes): MaybeNode {
    if FindKid(kids, name) < |kids| then ANode(kids[FindKid(kids, name)]) else NoNode
  }

  function KidOrNew(kids: seq<Node>, name: Bytes): Node {
    if KidNamed(kids, name).ANode? then KidNamed(kids, name).n else Node(name, [], [])
  }

  /** No two names that stand for each other: none is another followed by a unit
      address. */
  ghost predicate Apart(names: set<Bytes>) {
    forall a, b :: a in names && b in names && NameEq(a, b) ==> a == b
  }

  ghost predicate NamesIn(kids: seq<Node>, names: set<Bytes>) {
    forall i :: 0 <= i < |kids| ==> kids[i].name in names
  }

  ghost predicate DistinctNames(kids: seq<Node>) {
    forall i, j :: 0 <= i < j < |kids| ==> kids[i].name != kids[j].name
  }

  lemma SelfName(a: Bytes)
    ensures NameEq(a, a)
  {
  }

  /** Merging one child changes what its own name finds, and nothing else. */
  lemma MergeKidReads(n: Node, k: Node, name: Bytes, names: set<Bytes>)
    requires Apart(names) && NamesIn(n.kids, names) && k.name in names && name in names
    ensures NamesIn(MergeKid(n, k).kids, names)
    ensures name != k.name ==> KidNamed(MergeKid(n, k).kids, name) == KidNamed(n.kids, name)
    ensures name == k.name ==> KidNamed(MergeKid(n, k).kids, name) == ANode(Merge(KidOrNew(n.kids, name), k))
  {
    hide Merge, NameEq;
    var c, m := FindKid(n.kids, k.name), MergeKid(n, k);
    var d := FindKid(n.kids, name);
    SelfName(k.name);
    if c < |n.kids| {
      KeepsName(n.kids[c], k);
      if d < |n.kids| { FindKidIs(m.kids, name, d); } else { NoKid(m.kids, name); }
    } else {
      KeepsName(Node(k.name, [], []), k);
      assert forall i :: 0 < i < |m.kids| ==> m.kids[i] == n.kids[i - 1];
      if name == k.name {
        FindKidIs(m.kids, name, 0);
      } else if d < |n.kids| {
        FindKidIs(m.kids, name, d + 1);
      } else {
        NoKid(m.kids, name);
      }
    }
  }

  lemma KeepsName(n: Node, o: Node)
    ensures Merge(n, o).name == n.name
  {
    MergeReads(n, o, []);
  }

  /** A child of the merged node is the child merged, or the one that was there. */
  lemma {:induction false} MergeKidsReads(n: Node, ks: seq<Node>, name: Bytes, names: set<Bytes>)
    requires Apart(names) && NamesIn(n.kids, names) && NamesIn(ks, names) && DistinctNames(ks) && name in names
    ensures NamesIn(MergeKids(n, ks).kids, names)
    ensures KidNamed(ks, name).NoNode? ==> KidNamed(MergeKids(n, ks).kids, name) == KidNamed(n.kids, name)
    ensures KidNamed(ks, name).ANode? ==> KidNamed(MergeKids(n, ks).kids, name) == ANode(Merge(KidOrNew(n.kids, name), KidNamed(ks, name).n))
  {
    hide Merge, NameEq, MergeKid;
    if ks != [] {
      var less, k := ks[..|ks| - 1], ks[|ks| - 1];
      MergeKidsReads(n, less, name, names);
      MergeKidReads(MergeKids(n, less), k, name, names);
      KidNamedLast(ks, name, names);
    }
  }

  lemma KidNamedLast(ks: seq<Node>, name: Bytes, names: set<Bytes>)
    requires ks != [] && Apart(names) && NamesIn(ks, names) && DistinctNames(ks) && name in names
    ensures ks[|ks| - 1].name == name ==> KidNamed(ks[..|ks| - 1], name).NoNode? && KidNamed(ks, name) == ANode(ks[|ks| - 1])
    ensures ks[|ks| - 1].name != name ==> KidNamed(ks, name) == KidNamed(ks[..|ks| - 1], name)
  {
    var less, last := ks[..|ks| - 1], |ks| - 1;
    SelfName(name);
    hide NameEq;
    var d := FindKid(less, name);
    if ks[last].name == name {
      NoKid(less, name);
      FindKidIs(ks, name, last);
    } else if d < |less| {
      FindKidIs(ks, name, d);
    } else {
      NoKid(ks, name);
    }
  }

  // ----- paths -----

  lemma {:induction false} PutChild(n: Node, p: Path, c: nat, x: Node)
    requires Has(n, p) && c < |At(n, p).kids|
    ensures Has(n, p + [c]) && At(n, p + [c]) == At(n, p).kids[c]
    ensures Put(n, p + [c], x) == Put(n, p, At(n, p).(kids := At(n, p).kids[c := x]))
    decreases p
  {
    if p == [] {
      assert p + [c] == [c] && [c][1..] == [];
    } else {
      assert (p + [c])[0] == p[0] && (p + [c])[1..] == p[1..] + [c];
      PutChild(n.kids[p[0]], p[1..], c, x);
    }
  }

  lemma {:induction false} PutPut(n: Node, p: Path, x: Node, y: Node)
    requires Has(n, p)
    ensures Has(Put(n, p, x), p) && At(Put(n, p, x), p) == x && Put(Put(n, p, x), p, y) == Put(n, p, y)
    decreases p
  {
    if p != [] { PutPut(n.kids[p[0]], p[1..], x, y); }
  }

  // ----- where nodes stand -----

  lemma TotalOnce(ts: seq<Token>, i: nat, j: nat)
    requires i < |ts| && j < |ts| && Total(ts[..i]) == Total(ts[..j])
    ensures i == j
  {
    hide *;
    if i < j {
      TotalNext(ts, i);
      TotalGrows(ts, i + 1, j);
    } else if j < i {
      TotalNext(ts, j);
      TotalGrows(ts, j + 1, i);
    }
  }

  lemma SameParts(ts: seq<Token>, us: seq<Token>, i: nat)
    requires i < |ts| && SameUpto(ts, us, Total(ts[..i]))
    ensures i < |us| && ts[..i + 1] == us[..i + 1]
  {
    var j: nat :| j < |ts| && j < |us| && ts[..j + 1] == us[..j + 1] && Total(ts[..i]) == Total(ts[..j]);
    TotalOnce(ts, i, j);
  }

  lemma SameLess(ts: seq<Token>, us: seq<Token>, i: nat, j: nat)
    requires j <= i < |ts| && i < |us| && ts[..i + 1] == us[..i + 1]
    ensures us[..j] == ts[..j] && us[j] == ts[j] && SameUpto(ts, us, Total(ts[..j]))
  {
    assert ts[..j] == ts[..i + 1][..j] && us[..j] == us[..i + 1][..j];
    assert ts[j] == ts[..i + 1][j] && us[j] == us[..i + 1][j];
    SameUptoAt(ts, us, j);
  }

  lemma SameThen(a: seq<Token>, b: seq<Token>, c: seq<Token>, o: nat)
    requires SameUpto(a, b, o) && SameUpto(b, c, o)
    ensures SameUpto(a, c, o)
  {
    var i: nat :| i < |a| && i < |b| && a[..i + 1] == b[..i + 1] && o == Total(a[..i]);
    assert a[..i] == a[..i + 1][..i] && b[..i] == b[..i + 1][..i];
    SameParts(b, c, i);
    assert b[..i] == b[..i + 1][..i] && c[..i] == c[..i + 1][..i];
    assert a[i] == a[..i + 1][i] && b[i] == b[..i + 1][i] && c[i] == c[..i + 1][i];
    SameUptoAt(a, c, i);
  }

  /** Tokens mean as many items whatever their names are. */
  lemma {:induction false} ViewLength(ts: seq<Token>, a: Bytes, b: Bytes)
    requires Named(ts, a) && Named(ts, b)
    ensures |View(ts, a)| == |View(ts, b)|
  {
    if ts != [] {
      assert ts[0] in ts && forall t :: t in ts[1..] ==> t in ts;
      ViewLength(ts[1..], a, b);
    }
  }

  lemma NamedPart(ts: seq<Token>, strs: Bytes, root: Node, i: nat)
    requires Represents(ts, strs, root) && i <= |ts|
    ensures Named(ts[..i], strs)
  {
    assert forall t :: t in ts[..i] ==> t in ts;
  }

  /** A child comes after its parent. */
  lemma {:induction false} BeforeKid(n: Node, p: Path, c: nat)
    requires Has(n, p) && c < |At(n, p).kids|
    ensures Has(n, p + [c]) && |Before(n, p)| < |Before(n, p + [c])|
    decreases p
  {
    if p == [] {
      assert p + [c] == [c] && [c][1..] == [];
    } else {
      assert (p + [c])[0] == p[0] && (p + [c])[1..] == p[1..] + [c];
      BeforeKid(n.kids[p[0]], p[1..], c);
    }
  }

  lemma ViewGrows(ts: seq<Token>, i: nat, j: nat, strs: Bytes)
    requires i <= j <= |ts|
    ensures |View(ts[..i], strs)| <= |View(ts[..j], strs)|
  {
    ViewCut(ts, i, j, strs);
  }

  lemma ParentFirst(ts: seq<Token>, strs: Bytes, root: Node, p: Path, c: nat, j: nat, i: nat)
    requires NodeAt(ts, strs, root, p, j) && Has(root, p + [c]) && NodeAt(ts, strs, root, p + [c], i)
    ensures j < i && c < |At(root, p).kids|
  {
    HasKid(root, p, c);
    BeforeKid(root, p, c);
    if i <= j { ViewGrows(ts, i, j, strs); }
  }

  lemma {:induction false} HasKid(n: Node, p: Path, c: nat)
    requires Has(n, p) && Has(n, p + [c])
    ensures c < |At(n, p).kids|
    decreases p
  {
    if p == [] {
      assert p + [c] == [c];
    } else {
      assert (p + [c])[0] == p[0] && (p + [c])[1..] == p[1..] + [c];
      HasKid(n.kids[p[0]], p[1..], c);
    }
  }

  lemma SamePrefix<T>(a: seq<T>, b: seq<T>, c: seq<T>, d: seq<T>)
    requires a + b == c + d && |a| == |c|
    ensures a == c
  {
    assert (a + b)[..|a|] == a && (c + d)[..|c|] == c;
  }

  /** A change inside a child leaves its parent where it is, too. */
  lemma ParentKept(ts: seq<Token>, strs: Bytes, root: Node, us: seq<Token>, strs': Bytes, root': Node, p: Path, c: nat, j: nat, i: nat, i': nat, m: Node)
    requires NodeAt(ts, strs, root, p, j) && Has(root, p + [c]) && NodeAt(ts, strs, root, p + [c], i)
    requires SameUpto(ts, us, Total(ts[..i]))
    requires root' == Put(root, p + [c], m)
    requires NodeAt(us, strs', root', p + [c], i') && Total(us[..i']) == Total(ts[..i])
    ensures NodeAt(us, strs', root', p, j) && SameUpto(ts, us, Total(ts[..j])) && Total(us[..j]) == Total(ts[..j])
  {
    hide *;
    ParentFirst(ts, strs, root, p, c, j, i);
    NodeParts(ts, strs, root, p, j);
    NodeParts(ts, strs, root, p + [c], i);
    SameParts(ts, us, i);
    SameLess(ts, us, i, i);
    SameLess(ts, us, i, j);
    NodeParts(us, strs', root', p + [c], i');
    TotalOnce(us, i, i');
    BeforeStays(root, p + [c], m);
    PutChild(root, p, c, m);
    BeforeStays(root, p, At(root, p).(kids := At(root, p).kids[c := m]));
    NamedPart(ts, strs, root, j);
    NamedPart(us, strs', root', j);
    ViewLength(us[..j], strs, strs');
    ViewCut(ts, j, i, strs);
    ViewCut(us, j, i, strs');
    SamePrefix(View(ts[..j], strs), View(ts[j..i], strs), View(us[..j], strs'), View(us[j..i], strs'));
    NodeAtIs(us, strs', root', p, j);
  }

  lemma NodeAtIs(ts: seq<Token>, strs: Bytes, root: Node, p: Path, i: nat)
    requires Represents(ts, strs, root) && Has(root, p) && i < |ts| && ts[i].BeginNode? && View(ts[..i], strs) == Before(root, p)
    ensures NodeAt(ts, strs, root, p, i)
  {
  }

  // ----- reading the overlay -----

  lemma FoundNoNul(strs: Bytes, off: int, s: Bytes)
    requires GetString(strs, off) == Found(s)
    ensures NoNul(s)
  {
  }

  /** fdt_get_name */
  method GetName(b: Blob, offset: nat, ghost x: nat) returns (name: Bytes)
    requires b.Valid() && x < |b.toks| && b.toks[x].BeginNode? && offset == Total(b.toks[..x])
    ensures name == b.toks[x].name && NoNul(name)
  {
    hide *;
    b.ValidParts();
    b.StructIs();
    BeginFields(b.Struct(), b.toks, x);
    var s := b.Block(b.off_struct, b.size_struct);
    name := s[offset + 4..NextOf(s, 0, offset + 4)];
    PlainUpto(s, offset + 4);
  }

  lemma PlainUpto(s: Bytes, o: nat)
    requires o <= |s|
    ensures NoNul(s[o..NextOf(s, 0, o)])
  {
  }

  /** fdt_first_subnode */
  method FirstSubnode(b: Blob, node: nat, ghost q: Path, ghost i: nat) returns (r: int, ghost x: nat)
    requires b.Valid() && NodeAt(b.toks, b.Strings(), b.root, q, i) && node == Total(b.toks[..i])
    ensures Has(b.root, q)
    ensures r >= 0 ==> KidHere(b.toks, b.Strings(), b.root, q, 0, x) && x < |b.toks| && r == Total(b.toks[..x])
    ensures r < 0 ==> r == -ERR_NOTFOUND && At(b.root, q).kids == []
  {
    hide *;
    b.ValidParts();
    ErrorsDiffer();
    NodeParts(b.toks, b.Strings(), b.root, q, i);
    AheadStart(b.toks, b.Strings(), b.root, q, i);
    ghost var c;
    var depth;
    r, depth, x, c := b.NextNode(node, 0, q, i, 0);
    if depth != 1 { return -1, x; }
    AheadHas(b.toks, b.Strings(), b.root, q, x + 1, 1, c);
    KidHereIs(b.toks, b.Strings(), b.root, q, c, x);
  }

  /** fdt_next_subnode */
  method NextSubnode(b: Blob, node: nat, ghost q: Path, ghost c0: nat, ghost x0: nat) returns (r: int, ghost x: nat)
    requires b.Valid() && KidHere(b.toks, b.Strings(), b.root, q, c0, x0) && node == Total(b.toks[..x0])
    ensures Has(b.root, q)
    ensures r >= 0 ==> KidHere(b.toks, b.Strings(), b.root, q, c0 + 1, x) && x < |b.toks| && r == Total(b.toks[..x])
    ensures r < 0 ==> r == -ERR_NOTFOUND && |At(b.root, q).kids| == c0 + 1
  {
    hide *;
    ErrorsDiffer();
    b.ValidParts();
    KidHereParts(b.toks, b.Strings(), b.root, q, c0, x0);
    var depth := 1;
    r, x := node, x0;
    ghost var c := c0;
    while true
      invariant x < |b.toks| && b.toks[x].BeginNode? && 0 <= r && r == Total(b.toks[..x]) && depth >= 1 && c == c0
      invariant Has(b.root, q) && Ahead(b.toks, b.Strings(), b.root, q, x + 1, depth, c)
      decreases |b.toks| - x
    {
      r, depth, x, c := b.NextNode(r, depth, q, x, c);
      if depth < 1 { return -1, x; }
      if depth <= 1 { break; }
    }
    AheadHas(b.toks, b.Strings(), b.root, q, x + 1, 1, c);
    KidHereIs(b.toks, b.Strings(), b.root, q, c, x);
  }

  /** The x-th token begins the c-th child of the node at q. */
  ghost predicate KidHere(ts: seq<Token>, strs: Bytes, root: Node, q: Path, c: nat, x: nat) {
    && Has(root, q) && c < |At(root, q).kids| && x < |ts| && ts[x].BeginNode? && ts[x].name == At(root, q).kids[c].name
    && Has(root, q + [c]) && NodeAt(ts, strs, root, q + [c], x) && At(root, q + [c]) == At(root, q).kids[c]
    && Ahead(ts, strs, root, q, x + 1, 1, c)
  }

  lemma KidHereIs(ts: seq<Token>, strs: Bytes, root: Node, q: Path, c: nat, x: nat)
    requires Has(root, q) && c < |At(root, q).kids| && x < |ts| && ts[x].BeginNode? && ts[x].name == At(root, q).kids[c].name
    requires NodeAt(ts, strs, root, q + [c], x) && Ahead(ts, strs, root, q, x + 1, 1, c)
    ensures KidHere(ts, strs, root, q, c, x)
  {
    PutChild(root, q, c, root);
  }

  lemma KidHereParts(ts: seq<Token>, strs: Bytes, root: Node, q: Path, c: nat, x: nat)
    requires KidHere(ts, strs, root, q, c, x)
    ensures Has(root, q) && c < |At(root, q).kids| && x < |ts| && ts[x].BeginNode? && ts[x].name == At(root, q).kids[c].name
    ensures Has(root, q + [c]) && NodeAt(ts, strs, root, q + [c], x) && At(root, q + [c]) == At(root, q).kids[c]
    ensures Ahead(ts, strs, root, q, x + 1, 1, c)
  {
  }

  // ----- overlay_apply_node -----

  /** Only the node at p of the tree r has been changed, to m; everything up to
      where it begins is as it was. */
  ghost predicate Changed(b: Blob, ts: seq<Token>, r: Node, target: nat, p: Path, m: Node)
    reads b, b.buf
  {
    b.Valid() && b.IsNode(target, p) && SameUpto(ts, b.toks, target) && Has(r, p) && b.root == Put(r, p, m)
  }

  lemma ChangedParts(b: Blob, ts: seq<Token>, r: Node, target: nat, p: Path, m: Node)
    requires Changed(b, ts, r, target, p, m)
    ensures b.Valid() && b.IsNode(target, p) && SameUpto(ts, b.toks, target) && Has(r, p) && b.root == Put(r, p, m)
    ensures Has(b.root, p) && At(b.root, p) == m
  {
    PutPut(r, p, m, m);
  }

  lemma ChangedMore(b: Blob, ts: seq<Token>, r: Node, us: seq<Token>, s: Node, target: nat, p: Path, m: Node, n: Node)
    requires Has(r, p) && s == Put(r, p, m) && SameUpto(ts, us, target)
    requires b.Valid() && b.IsNode(target, p) && SameUpto(us, b.toks, target) && Has(s, p) && b.root == Put(s, p, n)
    ensures Changed(b, ts, r, target, p, n)
  {
    hide FdtEdit.Blob.Valid, FdtEdit.Blob.IsNode;
    PutPut(r, p, m, n);
    SameThen(ts, us, b.toks, target);
  }

  lemma ChangedNone(b: Blob, target: nat, p: Path)
    requires b.Valid() && b.IsNode(target, p)
    ensures Has(b.root, p) && Changed(b, b.toks, b.root, target, p, At(b.root, p))
  {
    var i: nat :| NodeAt(b.toks, b.Strings(), b.root, p, i) && target == Total(b.toks[..i]);
    SameUptoAt(b.toks, b.toks, i);
    PutSame(b.root, p);
  }

  /** The loop over the properties. */
  method ApplyProps(base: Blob, target: nat, over: Blob, node: nat, ghost p: Path, ghost q: Path) returns (err: int, ghost m: Node)
    requires base != over && base.buf != over.buf && base.Valid() && base.IsNode(target, p) && over.Valid() && over.IsNode(node, q)
    modifies base, base.buf
    ensures Changed(base, old(base.toks), old(base.root), target, p, m)
    ensures Has(old(base.root), p) && Has(over.root, q)
    ensures err == 0 || err == -ERR_NOSPACE
    ensures err == 0 ==> m == MergeProps(At(old(base.root), p), At(over.root, q).props)
  {
    hide *;
    ErrorsDiffer();
    over.ValidParts();
    ChangedNone(base, target, p);
    ghost var ts, r0, n := base.toks, base.root, At(base.root, p);
    ghost var i := over.NodeToken(node, q);
    NodeParts(over.toks, over.Strings(), over.root, q, i);
    PropsStart(over.toks, over.Strings(), over.root, q, i);
    ghost var ps := At(over.root, q).props;
    m := n;
    MergePropsStep(n, ps, 0);
    var tag, next := over.TagAt(node, i);
    ghost var j: nat, k: nat := 0, 0;
    var property: int;
    property, j := over.NextProp(next, q, i + 1, 0);
    err := 0;
    while property >= 0
      invariant 0 <= k <= |ps| && m == MergeProps(n, ps[..k]) && Changed(base, ts, r0, target, p, m) && over.Valid()
      invariant property >= 0 ==> k < |ps| && j < |over.toks| && over.toks[j].Prop? && property == Total(over.toks[..j])
      invariant property >= 0 ==> PropsAhead(over.toks, over.Strings(), j, ps, k, Behind(over.root, q))
      invariant property < 0 ==> k == |ps|
      decreases |ps| - k, property >= 0
    {
      PropsStep(over.toks, over.Strings(), over.root, j, ps, k, Behind(over.root, q));
      var name, value := over.ReadProp(property, j);
      ReadPlain(over, j, ps[k].name);
      ChangedParts(base, ts, r0, target, p, m);
      ghost var us, s := base.toks, base.root;
      err := base.SetProp(target, name.s, value, p);
      if err != 0 {
        PutSame(s, p);
        ChangedMore(base, ts, r0, us, s, target, p, m, m);
        return;
      }
      ghost var m' := FdtTree.SetProp(m, ps[k].name, ps[k].value);
      ChangedMore(base, ts, r0, us, s, target, p, m, m');
      MergePropsStep(n, ps, k);
      m := m';
      tag, next := over.TagAt(property, j);
      k := k + 1;
      property, j := over.NextProp(next, q, j + 1, k);
    }
    MergePropsStep(n, ps, |ps|);
  }

  lemma MergePropsStep(n: Node, ps: seq<NodeProp>, k: nat)
    requires k <= |ps|
    ensures MergeProps(n, ps[..0]) == n && ps[..|ps|] == ps
    ensures k < |ps| ==> MergeProps(n, ps[..k + 1]) == FdtTree.SetProp(MergeProps(n, ps[..k]), ps[k].name, ps[k].value)
  {
    if k < |ps| { assert ps[..k + 1][..k] == ps[..k]; }
  }

  lemma ReadPlain(b: Blob, j: nat, name: Bytes)
    requires b.Valid() && j < |b.toks| && b.toks[j].Prop? && NameOf(b.toks[j], b.Strings()) == Found(name)
    ensures NoNul(name) && |b.toks[j].value| <= INT_MAX
  {
    FoundNoNul(b.Strings(), AsInt(b.toks[j].nameoff), name);
    ValueFits(b.Struct(), b.toks, j);
  }

  /** A child found or made: where it is, and what the target has become. */
  method EnterKid(base: Blob, target: nat, name: Bytes, ghost p: Path) returns (r: int, ghost c: nat, ghost m: Node)
    requires base.Valid() && base.IsNode(target, p) && NoNul(name)
    modifies base, base.buf
    ensures Changed(base, old(base.toks), old(base.root), target, p, m)
    ensures Has(old(base.root), p) && (r >= 0 || r == -ERR_NOSPACE)
    ensures r >= 0 ==> Entered(At(old(base.root), p), name, c, m) && Has(base.root, p + [c]) && base.IsNode(r, p + [c])
  {
    hide *;
    ErrorsDiffer();
    ChangedNone(base, target, p);
    ghost var ts, r0, n := base.toks, base.root, At(base.root, p);
    m := n;
    c := 0;
    r := base.AddSubnode(target, name, p);
    PutSame(r0, p);
    if r >= 0 {
      m := FdtTree.AddSubnode(n, name);
    }
    ChangedFrom(base, ts, r0, target, p, m);
    EnteredNew(n, name);
    if r == -2 {
      ghost var x;
      r, x := base.SubnodeOffset(target, name, p);
      c := FindKid(n.kids, name);
      EnteredOld(n, name);
      KidIsNode(base, r, p, c, x);
    } else if r >= 0 {
      HasNew(base.root, r0, p, n, name);
    }
  }

  /** m is n with a child at c that name finds: one that was there, or a new one
      in front. */
  ghost predicate Entered(n: Node, name: Bytes, c: nat, m: Node) {
    if FindKid(n.kids, name) < |n.kids| then c == FindKid(n.kids, name) && m == n
    else c == 0 && m == FdtTree.AddSubnode(n, name)
  }

  lemma EnteredNew(n: Node, name: Bytes)
    ensures FindKid(n.kids, name) == |n.kids| ==> Entered(n, name, 0, FdtTree.AddSubnode(n, name))
    ensures FindKid(n.kids, name) <= |n.kids|
  {
  }

  lemma EnteredOld(n: Node, name: Bytes)
    ensures FindKid(n.kids, name) < |n.kids| ==> Entered(n, name, FindKid(n.kids, name), n)
  {
  }

  lemma ChangedFrom(b: Blob, ts: seq<Token>, r: Node, target: nat, p: Path, m: Node)
    requires b.Valid() && b.IsNode(target, p) && SameUpto(ts, b.toks, target) && Has(r, p) && b.root == Put(r, p, m)
    ensures Changed(b, ts, r, target, p, m)
  {
  }

  lemma HasNew(root: Node, r0: Node, p: Path, n: Node, name: Bytes)
    requires Has(r0, p) && root == Put(r0, p, FdtTree.AddSubnode(n, name))
    ensures Has(root, p + [0])
  {
    PutPut(r0, p, FdtTree.AddSubnode(n, name), n);
    PutChild(root, p, 0, n);
  }

  lemma KidIsNode(b: Blob, r: int, p: Path, c: nat, x: nat)
    requires b.Valid() && r >= 0 && NodeAt(b.toks, b.Strings(), b.root, p + [c], x) && r == Total(b.toks[..x])
    ensures Has(b.root, p + [c]) && b.IsNode(r, p + [c])
  {
  }

  /** What has become of the target once its child has been merged into. */
  lemma KidMerged(n: Node, k: Node, c: nat, m: Node, x: Node)
    requires Entered(n, k.name, c, m) && c < |m.kids| && x == Merge(m.kids[c], k)
    ensures m.(kids := m.kids[c := x]) == MergeKid(n, k)
  {
    if c == 0 && m == FdtTree.AddSubnode(n, k.name) && FindKid(n.kids, k.name) == |n.kids| {
      assert m.kids[0] == Node(k.name, [], []);
      assert m.kids[0 := x] == [x] + n.kids;
    }
  }

  lemma EnteredHas(n: Node, name: Bytes, c: nat, m: Node)
    requires Entered(n, name, c, m)
    ensures c < |m.kids|
  {
  }

  /** Changing a child of the target is changing the target. */
  lemma ChangedKid(b: Blob, ts: seq<Token>, strs: Bytes, r: Node, target: nat, p: Path, j: nat, c: nat, i: nat, kid: nat, x: Node)
    requires NodeAt(ts, strs, r, p, j) && target == Total(ts[..j])
    requires Has(r, p + [c]) && NodeAt(ts, strs, r, p + [c], i) && kid == Total(ts[..i])
    requires Changed(b, ts, r, kid, p + [c], x)
    ensures Has(r, p) && c < |At(r, p).kids|
    ensures Changed(b, ts, r, target, p, At(r, p).(kids := At(r, p).kids[c := x]))
  {
    hide *;
    ChangedParts(b, ts, r, kid, p + [c], x);
    NodeParts(ts, strs, r, p, j);
    ParentFirst(ts, strs, r, p, c, j, i);
    PutChild(r, p, c, x);
    var i' := NodeIndex(b, kid, p + [c]);
    ParentKept(ts, strs, r, b.toks, b.Strings(), b.root, p, c, j, i, i', x);
    b.ValidParts();
    b.IsNodeNow(target, p, j);
    ChangedFrom(b, ts, r, target, p, At(r, p).(kids := At(r, p).kids[c := x]));
  }

  lemma NodeIndex(b: Blob, o: nat, p: Path) returns (i: nat)
    requires b.Valid() && b.IsNode(o, p)
    ensures NodeAt(b.toks, b.Strings(), b.root, p, i) && o == Total(b.toks[..i])
  {
    i :| NodeAt(b.toks, b.Strings(), b.root, p, i) && o == Total(b.toks[..i]);
  }

  lemma ChangedTwice(b: Blob, ts: seq<Token>, r: Node, us: seq<Token>, s: Node, target: nat, p: Path, m: Node, n: Node)
    requires Has(r, p) && s == Put(r, p, m) && SameUpto(ts, us, target) && Changed(b, us, s, target, p, n)
    ensures Changed(b, ts, r, target, p, n)
  {
    ChangedParts(b, us, s, target, p, n);
    ChangedMore(b, ts, r, us, s, target, p, m, n);
  }

  lemma MergeKidsStep(n: Node, ks: seq<Node>, k: nat)
    requires k <= |ks|
    ensures MergeKids(n, ks[..0]) == n && ks[..|ks|] == ks
    ensures k < |ks| ==> MergeKids(n, ks[..k + 1]) == MergeKid(MergeKids(n, ks[..k]), ks[k])
  {
    if k < |ks| { assert ks[..k + 1][..k] == ks[..k]; }
  }

  lemma MergeIs(n: Node, o: Node)
    ensures Merge(n, o) == MergeKids(MergeProps(n, o.props), o.kids)
  {
  }

  /** overlay_apply_node: merges the node of the overlay over the target, and
      touches nothing outside the target, even when room runs out half way. */
  method ApplyNode(base: Blob, target: nat, over: Blob, node: nat, ghost p: Path, ghost q: Path, ghost o: Node)
    returns (err: int, ghost m: Node)
    requires base != over && base.buf != over.buf && base.Valid() && base.IsNode(target, p) && over.Valid() && over.IsNode(node, q)
    requires Has(over.root, q) && o == At(over.root, q)
    modifies base, base.buf
    ensures Changed(base, old(base.toks), old(base.root), target, p, m) && Has(old(base.root), p)
    ensures err == 0 || err == -ERR_NOSPACE
    ensures err == 0 ==> m == Merge(At(old(base.root), p), o)
    decreases o
  {
    hide *;
    ErrorsDiffer();
    ghost var ts, r0 := base.toks, base.root;
    over.ValidParts();
    err, m := ApplyProps(base, target, over, node, p, q);
    if err != 0 { return; }
    ghost var n := At(r0, p);
    ghost var m0 := m;
    MergeIs(n, o);
    MergeKidsStep(m0, o.kids, 0);
    ghost var i := over.NodeToken(node, q);
    ghost var x: nat, k: nat := 0, 0;
    var subnode: int;
    subnode, x := FirstSubnode(over, node, q, i);
    if subnode >= 0 { KidHereParts(over.toks, over.Strings(), over.root, q, 0, x); }
    while subnode >= 0
      invariant 0 <= k <= |o.kids| && m == MergeKids(m0, o.kids[..k]) && Changed(base, ts, r0, target, p, m) && over.Valid() && err == 0
      invariant subnode >= 0 ==> KidHere(over.toks, over.Strings(), over.root, q, k, x)
      invariant subnode >= 0 ==> x < |over.toks| && subnode == Total(over.toks[..x])
      invariant subnode < 0 ==> k == |o.kids|
      decreases |o.kids| - k, subnode >= 0
    {
      KidHereParts(over.toks, over.Strings(), over.root, q, k, x);
      KidIsNode(over, subnode, q, k, x);
      MergeKidsStep(m0, o.kids, k);
      err, m := ApplyKid(base, target, over, subnode, p, q, o, k, x, ts, r0, m);
      if err != 0 { return; }
      subnode, x := NextSubnode(over, subnode, q, k, x);
      k := k + 1;
      if subnode >= 0 { KidHereParts(over.toks, over.Strings(), over.root, q, k, x); }
    }
    MergeKidsStep(m0, o.kids, |o.kids|);
  }

  /** One turn of the loop over the subnodes. */
  method ApplyKid(base: Blob, target: nat, over: Blob, subnode: nat, ghost p: Path, ghost q: Path, ghost o: Node, ghost k: nat, ghost x: nat,
                  ghost ts: seq<Token>, ghost r0: Node, ghost m0: Node)
    returns (err: int, ghost m: Node)
    requires base != over && base.buf != over.buf && over.Valid() && Has(over.root, q) && o == At(over.root, q)
    requires KidHere(over.toks, over.Strings(), over.root, q, k, x) && x < |over.toks| && subnode == Total(over.toks[..x]) && k < |o.kids|
    requires Changed(base, ts, r0, target, p, m0)
    modifies base, base.buf
    ensures Changed(base, ts, r0, target, p, m)
    ensures err == 0 || err == -ERR_NOSPACE
    ensures err == 0 ==> m == MergeKid(m0, o.kids[k])
    decreases o, 0
  {
    hide *;
    ErrorsDiffer();
    over.ValidParts();
    KidHereParts(over.toks, over.Strings(), over.root, q, k, x);
    KidIsNode(over, subnode, q, k, x);
    ChangedParts(base, ts, r0, target, p, m0);
    ghost var us, s := base.toks, base.root;
    var name := GetName(over, subnode, x);
    ghost var c, m1;
    var nnode: int;
    nnode, c, m1 := EnterKid(base, target, name, p);
    ChangedTwice(base, ts, r0, us, s, target, p, m0, m1);
    if nnode < 0 {
      return nnode, m1;
    }
    EnteredHas(m0, name, c, m1);
    ChangedParts(base, ts, r0, target, p, m1);
    ghost var vs, v, strs := base.toks, base.root, base.Strings();
    ghost var j := NodeIndex(base, target, p);
    ghost var i := NodeIndex(base, nnode, p + [c]);
    ghost var y;
    err, y := ApplyNode(base, nnode, over, subnode, p + [c], q + [k], o.kids[k]);
    ChangedKid(base, vs, strs, v, target, p, j, c, i, nnode, y);
    PutChild(v, p, c, y);
    m := m1.(kids := m1.kids[c := y]);
    ChangedTwice(base, ts, r0, vs, v, target, p, m1, m);
    if err == 0 { KidMerged(m0, o.kids[k], c, m1, y); }
  }
}
