/** Making an overlay's phandles its own: they are raised above the base tree's,
    and the overlay's own references with them. */
module FdtPhandle {
  import opened Common
  import opened FdtBytes
  import opened FdtTokens
  import opened FdtTree
  import opened FdtView
  import opened FdtChange
  import opened FdtEdit
  import opened FdtOverlay
  import opened FdtInPlace

  const ERR_BADPHANDLE: int := 6
  const ERR_BADOVERLAY: int := 16
  const ERR_NOPHANDLES: int := 17

  /** "phandle" and "linux,phandle" */
  const PHANDLE: Bytes := [112, 104, 97, 110, 100, 108, 101]
  const LINUX_PHANDLE: Bytes := [108, 105, 110, 117, 120, 44, 112, 104, 97, 110, 100, 108, 101]

  /** A property that holds one word. */
  function WordOf(n: Node, name: Bytes): int {
    var r := Lookup(n, name);
    if r.Found? && |r.s| == 4 then Get32(r.s) else -1
  }

  /** fdt_get_phandle */
  function Phandle(n: Node): nat {
    if WordOf(n, PHANDLE) >= 0 then WordOf(n, PHANDLE)
    else if WordOf(n, LINUX_PHANDLE) >= 0 then WordOf(n, LINUX_PHANDLE)
    else 0
  }

  // ----- raising the phandles of a tree -----

  datatype Outcome = Good(n: Node) | Bad(err: int)

  /** overlay_phandle_add_offset; a missing property is no error to its callers. */
  function Raise(n: Node, name: Bytes, delta: nat): Outcome {
    var k := FindProp(n.props, name);
    if k == |n.props| then Good(n)
    else
      var v := n.props[k].value;
      if |v| != 4 then Bad(-ERR_BADPHANDLE)
      else if Get32(v) + delta >= WORD - 1 then Bad(-ERR_NOPHANDLES)
      else Good(PatchNode(n, k, 0, Word(Get32(v) + delta)))
  }

  function RaiseBoth(n: Node, delta: nat): Outcome {
    match Raise(n, PHANDLE, delta)
    case Bad(e) => Bad(e)
    case Good(m) => Raise(m, LINUX_PHANDLE, delta)
  }

  /** overlay_adjust_node_phandles */
  function Adjust(n: Node, delta: nat): Outcome
    decreases n, 1
  {
    match RaiseBoth(n, delta)
    case Bad(e) => Bad(e)
    case Good(m) => AdjustKids(m, n.kids, delta)
  }

  /** The children ks of n adjusted, in order, and put in their places. */
  function AdjustKids(n: Node, ks: seq<Node>, delta: nat): Outcome
    decreases ks, 0
  {
    if ks == [] then Good(n)
    else
      var last := |ks| - 1;
      match AdjustKids(n, ks[..last], delta)
      case Bad(e) => Bad(e)
      case Good(m) =>
        match Adjust(ks[last], delta)
        case Bad(e) => Bad(e)
        case Good(x) => if last < |m.kids| then Good(m.(kids := m.kids[last := x])) else Good(m)
  }

  /** fdt_setprop_inplace_u32 behind overlay_phandle_add_offset */
  method AddOffset(b: Blob, nodeoffset: nat, name: Bytes, delta: nat, ghost p: Path) returns (err: int, ghost m: Node)
    requires b.Valid() && b.IsNode(nodeoffset, p) && delta < WORD
    modifies b`toks, b`root, b.buf
    ensures Stands(b, old(b.toks), old(b.Strings()), old(b.root)) && b.IsNode(nodeoffset, p) && Has(old(b.root), p)
    ensures b.root == Put(old(b.root), p, m)
    ensures Raise(At(old(b.root), p), name, delta) == if err == 0 || err == -ERR_NOTFOUND then Good(m) else Bad(err)
  {
    hide *;
    Errors();
    b.ValidParts();
    StandsNow(b);
    ghost var i := NodeIndex(b, nodeoffset, p);
    NodeParts(b.toks, b.Strings(), b.root, p, i);
    ghost var r, n := b.root, At(b.root, p);
    PutSame(r, p);
    m := n;
    RaiseIs(n, name, delta);
    var val := b.GetProp(nodeoffset, name, p);
    if val.Failed? {
      return val.err, m;
    }
    if |val.s| != 4 {
      return -6, m;
    }
    var v := Get32(val.s);
    if (v + delta) % WORD < v {
      SumWraps(v, delta);
      return -17, m;
    }
    SumWraps(v, delta);
    if v + delta == WORD - 1 {
      return -17, m;
    }
    ghost var astray;
    err, astray := Patch(b, nodeoffset, name, 0, Word(v + delta), p);
    m := Patching(n, name, 0, Word(v + delta));
  }

  lemma Errors()
    ensures ERR_NOTFOUND == 1 && ERR_NOSPACE == 3 && ERR_BADPHANDLE == 6 && ERR_BADOVERLAY == 16 && ERR_NOPHANDLES == 17 && WORD == 0x1_0000_0000 && INT_MAX == 0x7fff_ffff
  {
  }

  lemma SumWraps(v: nat, delta: nat)
    requires v < WORD && delta < WORD
    ensures (v + delta) % WORD < v <==> v + delta >= WORD
    ensures v + delta < WORD ==> (v + delta) % WORD == v + delta
  {
  }

  lemma RaiseIs(n: Node, name: Bytes, delta: nat)
    ensures var k := FindProp(n.props, name);
      k <= |n.props| && Lookup(n, name) == if k < |n.props| then Found(n.props[k].value) else Failed(-1)
    ensures var r := Lookup(n, name);
      && (r.Failed? ==> r.err == -1 && Raise(n, name, delta) == Good(n))
      && (r.Found? && |r.s| != 4 ==> Raise(n, name, delta) == Bad(-6))
      && (r.Found? && |r.s| == 4 && Get32(r.s) + delta >= WORD - 1 ==> Raise(n, name, delta) == Bad(-17))
      && (r.Found? && |r.s| == 4 && Get32(r.s) + delta < WORD - 1 ==>
           && |Word(Get32(r.s) + delta)| == 4
           && PatchError(n, name, 0, Word(Get32(r.s) + delta)) == 0
           && Raise(n, name, delta) == Good(Patching(n, name, 0, Word(Get32(r.s) + delta))))
  {
  }

  // ----- over all nodes -----

  /** A child is found again by where it stands. */
  lemma KidHereFrom(ts: seq<Token>, strs: Bytes, root: Node, q: Path, c: nat, x: nat)
    requires Has(root, q) && c < |At(root, q).kids| && NodeAt(ts, strs, root, q + [c], x)
    ensures KidHere(ts, strs, root, q, c, x)
  {
    hide *;
    PutChild(root, q, c, root);
    NodeParts(ts, strs, root, q + [c], x);
    NodeItems(ts, strs, root, q + [c], x);
    AfterChild(root, q, c);
    KidsHead(root, q, c);
    ChildAt(ts, strs, root, q, x, c);
    KidHereIs(ts, strs, root, q, c, x);
  }

  lemma RaiseKeeps(n: Node, delta: nat)
    ensures RaiseBoth(n, delta).Good? ==> RaiseBoth(n, delta).n.kids == n.kids && RaiseBoth(n, delta).n.name == n.name
  {
  }

  /** The children that are not yet adjusted are as they were. */
  lemma {:induction false} AdjustKidsRest(n: Node, ks: seq<Node>, delta: nat)
    requires AdjustKids(n, ks, delta).Good?
    ensures var m := AdjustKids(n, ks, delta).n;
      && |m.kids| == |n.kids| && m.props == n.props && m.name == n.name
      && forall i :: |ks| <= i < |n.kids| ==> m.kids[i] == n.kids[i]
  {
    if ks != [] { AdjustKidsRest(n, ks[..|ks| - 1], delta); }
  }

  lemma AdjustStep(n: Node, ks: seq<Node>, k: nat, delta: nat)
    requires k < |ks| && AdjustKids(n, ks[..k], delta).Good?
    ensures Adjust(ks[k], delta).Bad? ==> AdjustKids(n, ks, delta) == Bad(Adjust(ks[k], delta).err)
    ensures Adjust(ks[k], delta).Good? ==>
      (var m := AdjustKids(n, ks[..k], delta).n;
       AdjustKids(n, ks[..k + 1], delta) == Good(if k < |m.kids| then m.(kids := m.kids[k := Adjust(ks[k], delta).n]) else m))
  {
    assert ks[..k + 1][..k] == ks[..k];
    if Adjust(ks[k], delta).Bad? { AdjustStops(n, ks, k + 1, delta, Adjust(ks[k], delta).err); }
  }

  lemma {:induction false} AdjustStops(n: Node, ks: seq<Node>, k: nat, delta: nat, err: int)
    requires k <= |ks| && AdjustKids(n, ks[..k], delta) == Bad(err)
    ensures AdjustKids(n, ks, delta) == Bad(err)
  {
    if k < |ks| {
      assert ks[..|ks| - 1][..k] == ks[..k];
      AdjustStops(n, ks[..|ks| - 1], k, delta, err);
    } else {
      assert ks[..k] == ks;
    }
  }

  lemma AdjustIs(n: Node, delta: nat)
    ensures Raise(n, PHANDLE, delta).Bad? ==> Adjust(n, delta) == Bad(Raise(n, PHANDLE, delta).err)
    ensures Raise(n, PHANDLE, delta).Good? ==> RaiseBoth(n, delta) == Raise(Raise(n, PHANDLE, delta).n, LINUX_PHANDLE, delta)
    ensures RaiseBoth(n, delta).Bad? ==> Adjust(n, delta) == Bad(RaiseBoth(n, delta).err)
    ensures RaiseBoth(n, delta).Good? ==> Adjust(n, delta) == AdjustKids(RaiseBoth(n, delta).n, n.kids, delta)
    ensures forall m :: AdjustKids(m, n.kids[..0], delta) == Good(m)
    ensures n.kids[..|n.kids|] == n.kids
  {
  }

  lemma PutIn(r: Node, p: Path, m: Node, k: nat, y: Node)
    requires Has(r, p) && k < |m.kids|
    ensures Has(Put(r, p, m), p) && At(Put(r, p, m), p) == m
    ensures Has(Put(r, p, m), p + [k]) && At(Put(r, p, m), p + [k]) == m.kids[k]
    ensures Put(Put(r, p, m), p + [k], y) == Put(r, p, m.(kids := m.kids[k := y]))
  {
    PutPut(r, p, m, m.(kids := m.kids[k := y]));
    PutChild(Put(r, p, m), p, k, y);
  }

  /** overlay_adjust_node_phandles: raises the phandles of a node and of all below
      it, as Adjust says; nothing moves. */
  method AdjustPhandles(b: Blob, node: nat, delta: nat, ghost p: Path, ghost n: Node) returns (err: int, ghost m: Node)
    requires b.Valid() && b.IsNode(node, p) && Has(b.root, p) && n == At(b.root, p) && delta < WORD
    modifies b`toks, b`root, b.buf
    ensures Stands(b, old(b.toks), old(b.Strings()), old(b.root)) && Has(old(b.root), p)
    ensures b.root == Put(old(b.root), p, m)
    ensures Adjust(n, delta) == if err == 0 then Good(m) else Bad(err)
    decreases n
  {
    hide *;
    Errors();
    b.ValidParts();
    ghost var ts, strs, r := b.toks, b.Strings(), b.root;
    ghost var i := NodeIndex(b, node, p);
    AdjustIs(n, delta);
    err, m := AddOffset(b, node, PHANDLE, delta, p);
    if err != 0 && err != -1 {
      return;
    }
    StandsParts(b, ts, strs, r);
    PutPut(r, p, m, m);
    ghost var us, mid, m1 := b.toks, b.root, m;
    err, m := AddOffset(b, node, LINUX_PHANDLE, delta, p);
    PutPut(r, p, m1, m);
    StandsThen(b, ts, strs, r, us, mid);
    if err != 0 && err != -1 {
      return;
    }
    RaiseKeeps(n, delta);
    StandsNode(b, ts, strs, r, p, i);
    err, m := AdjustSubnodes(b, node, delta, p, n, i, ts, strs, r, m);
  }

  /** The loop over the subnodes. */
  method AdjustSubnodes(b: Blob, node: nat, delta: nat, ghost p: Path, ghost n: Node, ghost i: nat,
                        ghost ts: seq<Token>, ghost strs: Bytes, ghost r: Node, ghost m0: Node) returns (err: int, ghost m: Node)
    requires Stands(b, ts, strs, r) && NodeAt(ts, strs, r, p, i) && Has(r, p) && b.root == Put(r, p, m0) && m0.kids == n.kids && delta < WORD
    requires node == Total(ts[..i])
    modifies b`toks, b`root, b.buf
    ensures Stands(b, ts, strs, r) && b.root == Put(r, p, m)
    ensures AdjustKids(m0, n.kids, delta) == if err == 0 then Good(m) else Bad(err)
    decreases n, 0
  {
    hide *;
    AdjustIs(n, delta);
    StandsNode(b, ts, strs, r, p, i);
    PutPut(r, p, m0, m0);
    m := m0;
    err := 0;
    ghost var k: nat, x: nat := 0, 0;
    var child: int;
    child, x := FirstSubnode(b, node, p, i);
    if child >= 0 { KidHereParts(b.toks, b.Strings(), b.root, p, 0, x); }
    while child >= 0
      invariant 0 <= k <= |n.kids| && AdjustKids(m0, n.kids[..k], delta) == Good(m) && err == 0
      invariant Stands(b, ts, strs, r) && b.Valid() && b.root == Put(r, p, m)
      invariant child >= 0 ==> k < |n.kids| && KidHere(b.toks, b.Strings(), b.root, p, k, x)
      invariant child >= 0 ==> x < |b.toks| && child == Total(b.toks[..x])
      invariant child < 0 ==> k == |n.kids|
      decreases |n.kids| - k, child >= 0
    {
      AdjustKidsRest(m0, n.kids[..k], delta);
      PutIn(r, p, m, k, m.kids[k]);
      KidHereParts(b.toks, b.Strings(), b.root, p, k, x);
      KidIsNode(b, child, p, k, x);
      StandsParts(b, ts, strs, r);
      ghost var us, mid, y := b.toks, b.root, m;
      AdjustStep(m0, n.kids, k, delta);
      err, y := AdjustPhandles(b, child, delta, p + [k], n.kids[k]);
      StandsNode(b, us, strs, mid, p + [k], x);
      StandsThen(b, ts, strs, r, us, mid);
      PutIn(r, p, m, k, y);
      m := m.(kids := m.kids[k := y]);
      if err != 0 {
        return;
      }
      PutPut(r, p, m, m);
      StandsParts(b, ts, strs, r);
      ShapeLength(us, b.toks);
      KidHereFrom(b.toks, b.Strings(), b.root, p, k, x);
      child, x := NextSubnode(b, child, p, k, x);
      k := k + 1;
      if child >= 0 { KidHereParts(b.toks, b.Strings(), b.root, p, k, x); }
    }
  }

  // ----- what the adjusted tree says -----

  /** One property raised: its own word is greater by delta, no other property
      has changed. */
  lemma RaiseReads(n: Node, name: Bytes, delta: nat, other: Bytes)
    requires Raise(n, name, delta).Good?
    ensures var m := Raise(n, name, delta).n;
      && m.kids == n.kids
      && (other != name ==> Lookup(m, other) == Lookup(n, other))
      && WordOf(m, name) == if WordOf(n, name) >= 0 then WordOf(n, name) + delta else -1
  {
    var m, k := Raise(n, name, delta).n, FindProp(n.props, name);
    if k < |n.props| {
      FindPropIs(m.props, name, k);
      WordBack(Get32(n.props[k].value) + delta);
      var w := Word(Get32(n.props[k].value) + delta);
      assert Patched(n.props[k].value, 0, w) == w;
      if other != name {
        var j := FindProp(n.props, other);
        if j < |n.props| { FindPropIs(m.props, other, j); } else { NoProp(m.props, other); }
      }
    }
  }

  lemma NamesDiffer()
    ensures PHANDLE != LINUX_PHANDLE
  {
    assert |PHANDLE| != |LINUX_PHANDLE|;
  }

  /** A node's phandle is raised by delta, if it has one. */
  lemma BothRaised(n: Node, delta: nat)
    requires RaiseBoth(n, delta).Good?
    ensures var m := RaiseBoth(n, delta).n;
      m.kids == n.kids && Phandle(m) == if Phandle(n) != 0 || HasPhandle(n) then Phandle(n) + delta else 0
  {
    hide PHANDLE, LINUX_PHANDLE, Raise, Lookup;
    NamesDiffer();
    var m := Raise(n, PHANDLE, delta).n;
    RaiseReads(n, PHANDLE, delta, LINUX_PHANDLE);
    RaiseReads(m, LINUX_PHANDLE, delta, PHANDLE);
  }

  /** The node has a phandle property of the right size. */
  predicate HasPhandle(n: Node) { WordOf(n, PHANDLE) >= 0 || WordOf(n, LINUX_PHANDLE) >= 0 }

  /** Every phandle of the tree is raised by delta, and nothing is added or lost. */
  lemma {:induction false} AdjustRaises(n: Node, delta: nat, q: Path)
    requires Adjust(n, delta).Good? && Has(n, q)
    ensures Has(Adjust(n, delta).n, q)
    ensures Phandle(At(Adjust(n, delta).n, q)) == if HasPhandle(At(n, q)) then Phandle(At(n, q)) + delta else 0
    decreases q
  {
    hide Phandle, HasPhandle, RaiseBoth;
    var m := RaiseBoth(n, delta).n;
    NodeRaised(n, delta);
    AdjustKidsRest(m, n.kids, delta);
    if q == [] {
      SameProps(m, Adjust(n, delta).n);
    } else {
      AdjustKidAt(m, n.kids, delta, q[0]);
      AdjustRaises(n.kids[q[0]], delta, q[1..]);
    }
  }

  lemma SameProps(n: Node, m: Node)
    requires n.props == m.props
    ensures Phandle(n) == Phandle(m)
  {
  }

  lemma NodeRaised(n: Node, delta: nat)
    requires RaiseBoth(n, delta).Good?
    ensures RaiseBoth(n, delta).n.kids == n.kids
    ensures Phandle(RaiseBoth(n, delta).n) == if HasPhandle(n) then Phandle(n) + delta else 0
  {
    BothRaised(n, delta);
  }

  lemma {:induction false} AdjustKidAt(n: Node, ks: seq<Node>, delta: nat, k: nat)
    requires AdjustKids(n, ks, delta).Good? && k < |ks| <= |n.kids|
    ensures Adjust(ks[k], delta).Good? && |AdjustKids(n, ks, delta).n.kids| == |n.kids|
    ensures AdjustKids(n, ks, delta).n.kids[k] == Adjust(ks[k], delta).n
  {
    AdjustKidsRest(n, ks, delta);
    AdjustKidsRest(n, ks[..|ks| - 1], delta);
    if k < |ks| - 1 { AdjustKidAt(n, ks[..|ks| - 1], delta, k); }
  }

  /** With delta the greatest phandle of the base tree, every phandle of the
      overlay ends above all of them. */
  lemma AboveBase(base: Node, o: Node, delta: nat, p: Path, q: Path)
    requires (forall p :: Has(base, p) ==> Phandle(At(base, p)) <= delta) && Adjust(o, delta).Good?
    requires Has(base, p) && Has(o, q) && Phandle(At(o, q)) != 0
    ensures Has(Adjust(o, delta).n, q) && Phandle(At(Adjust(o, delta).n, q)) > Phandle(At(base, p))
  {
    AdjustRaises(o, delta, q);
  }

  // ----- the greatest phandle -----

  /** An item among those of children belongs to one of them. */
  lemma {:induction false} KidOfItem(kids: seq<Node>, w: nat) returns (k: nat, v: nat)
    requires w < |KidItems(kids)|
    ensures k < |kids| && v < |Items(kids[k])| && w == |KidItems(kids[..k])| + v && KidItems(kids)[w] == Items(kids[k])[v]
    decreases |kids|
  {
    hide Items;
    if w < |Items(kids[0])| {
      k, v := 0, w;
    } else {
      k, v := KidOfItem(kids[1..], w - |Items(kids[0])|);
      assert kids[..k + 1][1..] == kids[1..][..k];
      k := k + 1;
    }
  }

  /** An opening belongs to a node. */
  lemma {:induction false} OpenIsNode(n: Node, z: nat) returns (q: Path)
    requires z < |Items(n)| && Items(n)[z].Open?
    ensures Has(n, q) && |Before(n, q)| == z
    decreases n
  {
    if z == 0 {
      q := [];
    } else {
      PropItemsLength(n.props);
      PropItemsOnly(n.props);
      var k, v := KidOfItem(n.kids, z - 1 - |n.props|);
      q := OpenIsNode(n.kids[k], v);
      q := [k] + q;
      assert q[1..] == q[1..];
      BeforeLength(n, k, q[1..]);
    }
  }

  lemma {:induction false} PropItemsOnly(ps: seq<NodeProp>)
    ensures forall i :: 0 <= i < |PropItems(ps)| ==> PropItems(ps)[i].Item?
  {
    if ps != [] { PropItemsOnly(ps[1..]); }
  }

  lemma BeforeLength(n: Node, k: nat, q: Path)
    requires k < |n.kids| && Has(n.kids[k], q)
    ensures Has(n, [k] + q) && |Before(n, [k] + q)| == 1 + |n.props| + |KidItems(n.kids[..k])| + |Before(n.kids[k], q)|
  {
    assert ([k] + q)[1..] == q;
    PropItemsLength(n.props);
  }

  lemma BeginIsNode(ts: seq<Token>, strs: Bytes, root: Node, y: nat) returns (q: Path)
    requires Represents(ts, strs, root) && y < |ts| && ts[y].BeginNode?
    ensures NodeAt(ts, strs, root, q, y)
  {
    hide *;
    ViewWhole(ts, strs, root);
    ViewCut(ts, 0, y, strs);
    assert ts[0..] == ts && ts[0..y] == ts[..y];
    ViewStep(ts, y, strs);
    MeaningOne(ts[y], strs);
    var z := |View(ts[..y], strs)|;
    assert Items(root)[z] == Open(ts[y].name);
    q := OpenIsNode(root, z);
    ItemsAround(root, q, At(root, q));
    PutSame(root, q);
    Grouped(Before(root, q), Items(At(root, q)), After(root, q));
    SamePrefix(View(ts[..y], strs), View(ts[y..], strs), Before(root, q), Items(At(root, q)) + After(root, q));
    NodeAtIs(ts, strs, root, q, y);
  }

  lemma {:induction false} TokenOfItem(ts: seq<Token>, strs: Bytes, z: nat) returns (y: nat)
    requires Named(ts, strs) && z < |View(ts, strs)|
    ensures y < |ts| && |View(ts[..y], strs)| == z && Meaning(ts[y], strs) == [View(ts, strs)[z]]
  {
    assert ts[0] in ts && forall t :: t in ts[1..] ==> t in ts;
    MeaningOne(ts[0], strs);
    if z < |Meaning(ts[0], strs)| {
      y := 0;
      assert ts[..0] == [];
    } else {
      y := TokenOfItem(ts[1..], strs, z - |Meaning(ts[0], strs)|);
      assert ts[..y + 1][1..] == ts[1..][..y];
      y := y + 1;
    }
  }

  lemma NodeHasToken(ts: seq<Token>, strs: Bytes, root: Node, q: Path) returns (y: nat)
    requires Represents(ts, strs, root) && Has(root, q)
    ensures NodeAt(ts, strs, root, q, y)
  {
    hide *;
    ItemsAround(root, q, At(root, q));
    PutSame(root, q);
    ViewWhole(ts, strs, root);
    NamedPart(ts, strs, root, |ts|);
    assert ts[..|ts|] == ts;
    var b, c := Before(root, q), Items(At(root, q)) + After(root, q);
    ItemsOpen(At(root, q), After(root, q));
    ItemsWhole(At(root, q));
    Grouped(b, Items(At(root, q)), After(root, q));
    assert (b + c)[|b|] == c[0];
    y := TokenOfItem(ts, strs, |b|);
    NamedAt(ts, strs, root, y);
    MeaningOne(ts[y], strs);
    ViewCut(ts, 0, y, strs);
    assert ts[0..] == ts && ts[0..y] == ts[..y];
    SamePrefix(View(ts[..y], strs), View(ts[y..], strs), b, c);
    NodeAtIs(ts, strs, root, q, y);
  }

  /** fdt_get_phandle */
  method GetPhandle(b: Blob, node: nat, ghost q: Path) returns (v: nat)
    requires b.Valid() && b.IsNode(node, q)
    ensures Has(b.root, q) && v == Phandle(At(b.root, q))
  {
    hide Blob.Valid, Blob.IsNode, PHANDLE, LINUX_PHANDLE;
    var r := b.GetProp(node, PHANDLE, q);
    if r.Failed? || |r.s| != 4 {
      r := b.GetProp(node, LINUX_PHANDLE, q);
      if r.Failed? || |r.s| != 4 {
        return 0;
      }
    }
    v := Get32(r.s);
  }

  /** Up to the x-th token no node has a phandle above max. */
  ghost predicate MaxUpto(b: Blob, x: nat, max: nat)
    requires b.Laid()
    reads b, b.buf
  {
    forall q, y: nat :: y < x && NodeAt(b.toks, b.Strings(), b.root, q, y) ==> Phandle(At(b.root, q)) <= max
  }

  /** fdt_find_max_phandle */
  method FindMaxPhandle(b: Blob) returns (max: nat)
    requires b.Valid()
    ensures forall q :: Has(b.root, q) ==> Phandle(At(b.root, q)) <= max
    ensures max == 0 || exists q :: Has(b.root, q) && Phandle(At(b.root, q)) == max
    ensures max < WORD
  {
    hide *;
    Codes();
    Errors();
    b.ValidParts();
    max := 0;
    ghost var x := 0;
    var offset := 0;
    MaxNone(b);
    ghost var best: Path := [];
    while true
      invariant x < |b.toks| && offset == Total(b.toks[..x]) && MaxUpto(b, x, max) && max < WORD
      invariant max == 0 || (Has(b.root, best) && Phandle(At(b.root, best)) == max)
      decreases |b.toks| - x
    {
      CodeOf(b.toks[x]);
      NotLast(b, x);
      var tag, next := b.TagAt(offset, x);
      if tag == 9 {
        break;
      }
      if tag == 1 {
        ghost var q := BeginIsNode(b.toks, b.Strings(), b.root, x);
        b.IsNodeNow(offset, q, x);
        var value := GetPhandle(b, offset, q);
        PhandleSmall(At(b.root, q));
        MaxMore(b, x, max, q, if value > max then value else max);
        if value > max {
          max := value;
          best := q;
        }
      } else {
        MaxSame(b, x, max);
      }
      offset := next;
      x := x + 1;
    }
    MaxEnd(b, x, max);
  }

  lemma MaxNone(b: Blob)
    requires b.Valid()
    ensures MaxUpto(b, 0, 0) && Total(b.toks[..0]) == 0 && 0 < |b.toks|
  {
  }

  lemma NotLast(b: Blob, x: nat)
    requires b.Valid() && x < |b.toks|
    ensures b.toks[x] == End <==> x == |b.toks| - 1
  {
    if x < |b.toks| - 1 { assert b.toks[..|b.toks| - 1][x] == b.toks[x]; }
  }

  lemma PhandleSmall(n: Node)
    ensures Phandle(n) < WORD
  {
  }

  lemma NodeOnce(ts: seq<Token>, strs: Bytes, root: Node, p: Path, q: Path, y: nat)
    requires NodeAt(ts, strs, root, p, y) && NodeAt(ts, strs, root, q, y)
    ensures At(root, p) == At(root, q)
  {
    SameBefore(root, p, q);
  }

  /** Nodes that begin at the same place are the same node. */
  lemma {:induction false} SameBefore(n: Node, p: Path, q: Path)
    requires Has(n, p) && Has(n, q) && |Before(n, p)| == |Before(n, q)|
    ensures p == q
    decreases p
  {
    if p == [] {
      if q != [] { PropItemsLength(n.props); }
    } else if q == [] {
      PropItemsLength(n.props);
    } else {
      BeforeShort(n, p);
      BeforeShort(n, q);
      if p[0] < q[0] {
        KidItemsGrow(n.kids, p[0], q[0]);
      } else if q[0] < p[0] {
        KidItemsGrow(n.kids, q[0], p[0]);
      } else {
        SameBefore(n.kids[p[0]], p[1..], q[1..]);
        assert p == [p[0]] + p[1..] && q == [q[0]] + q[1..];
      }
    }
  }

  lemma BeforeShort(n: Node, p: Path)
    requires Has(n, p) && p != []
    ensures |Before(n, p)| == 1 + |n.props| + |KidItems(n.kids[..p[0]])| + |Before(n.kids[p[0]], p[1..])|
    ensures |Before(n.kids[p[0]], p[1..])| < |Items(n.kids[p[0]])|
  {
    PropItemsLength(n.props);
    var k, r := n.kids[p[0]], p[1..];
    ItemsAround(k, r, At(k, r));
    PutSame(k, r);
  }

  lemma KidItemsGrow(kids: seq<Node>, a: nat, b: nat)
    requires a < b <= |kids|
    ensures |KidItems(kids[..a])| + |Items(kids[a])| <= |KidItems(kids[..b])|
  {
    assert kids[..b] == kids[..a] + ([kids[a]] + kids[a + 1..b]);
    KidItemsAppend(kids[..a], [kids[a]] + kids[a + 1..b]);
    KidItemsAppend([kids[a]], kids[a + 1..b]);
    assert [kids[a]][1..] == [];
    hide Items;
  }

  lemma MaxMore(b: Blob, x: nat, max: nat, q: Path, m: nat)
    requires b.Valid() && MaxUpto(b, x, max) && NodeAt(b.toks, b.Strings(), b.root, q, x)
    requires max <= m && Phandle(At(b.root, q)) <= m
    ensures MaxUpto(b, x + 1, m)
  {
    hide Phandle, Blob.Valid, Represents;
    b.ValidParts();
    forall p, y: nat | y < x + 1 && NodeAt(b.toks, b.Strings(), b.root, p, y) ensures Phandle(At(b.root, p)) <= m {
      if y == x { NodeOnce(b.toks, b.Strings(), b.root, p, q, x); }
    }
  }

  lemma MaxSame(b: Blob, x: nat, max: nat)
    requires b.Valid() && MaxUpto(b, x, max) && x < |b.toks| && !b.toks[x].BeginNode?
    ensures MaxUpto(b, x + 1, max)
  {
  }

  lemma MaxEnd(b: Blob, x: nat, max: nat)
    requires b.Valid() && MaxUpto(b, x, max) && x == |b.toks| - 1
    ensures forall q :: Has(b.root, q) ==> Phandle(At(b.root, q)) <= max
  {
    forall q | Has(b.root, q) ensures Phandle(At(b.root, q)) <= max {
      var y := NodeHasToken(b.toks, b.Strings(), b.root, q);
      NotLast(b, y);
    }
  }
}
