/** Merging all fragments of an overlay: overlay_merge and the search for the node
    that each fragment is for. */
module FdtMerge {
  import opened Common
  import opened FdtBytes
  import opened FdtTokens
  import opened FdtTree
  import opened FdtView
  import opened FdtChange
  import opened FdtEdit
  import opened FdtOverlay
  import opened FdtInPlace
  import opened FdtPhandle
  import opened FdtFixups
  import opened FdtPath
  import opened FdtReferences

  /** "__overlay__", "target" and "target-path" */
  const OVERLAY: Bytes := [95, 95, 111, 118, 101, 114, 108, 97, 121, 95, 95]
  const TARGET: Bytes := [116, 97, 114, 103, 101, 116]
  const TARGET_PATH: Bytes := [116, 97, 114, 103, 101, 116, 45, 112, 97, 116, 104]

  // ----- the node with a phandle -----

  /** The first node, in the order in which nodes are written, of that phandle. */
  ghost predicate IsFirst(root: Node, phandle: nat, q: Path) {
    && Has(root, q) && Phandle(At(root, q)) == phandle
    && forall r :: Has(root, r) && Phandle(At(root, r)) == phandle ==> |Before(root, q)| <= |Before(root, r)|
  }

  ghost function WithPhandle(root: Node, phandle: nat): Descent {
    if exists q :: IsFirst(root, phandle, q) then var q :| IsFirst(root, phandle, q); APath(q) else Nowhere
  }

  lemma FirstOnce(root: Node, phandle: nat, q: Path)
    requires IsFirst(root, phandle, q)
    ensures WithPhandle(root, phandle) == APath(q)
  {
    var r := WithPhandle(root, phandle).p;
    SameBefore(root, q, r);
  }

  /** No node before the x-th token has it. */
  ghost predicate NoneUpto(b: Blob, x: nat, phandle: nat)
    requires b.Laid()
    reads b, b.buf
  {
    forall q, y: nat :: y < x && NodeAt(b.toks, b.Strings(), b.root, q, y) ==> Phandle(At(b.root, q)) != phandle
  }

  lemma NoneStep(b: Blob, x: nat, phandle: nat, q: Path)
    requires b.Valid() && NoneUpto(b, x, phandle) && x < |b.toks|
    requires b.toks[x].BeginNode? ==> NodeAt(b.toks, b.Strings(), b.root, q, x) && Phandle(At(b.root, q)) != phandle
    ensures NoneUpto(b, x + 1, phandle)
  {
    hide Phandle, Blob.Valid, Represents;
    b.ValidParts();
    forall p, y: nat | y < x + 1 && NodeAt(b.toks, b.Strings(), b.root, p, y) ensures Phandle(At(b.root, p)) != phandle {
      if y == x { NodeOnce(b.toks, b.Strings(), b.root, p, q, x); }
    }
  }

  lemma NoneStart(b: Blob, phandle: nat)
    requires b.Valid()
    ensures NoneUpto(b, 0, phandle) && Total(b.toks[..0]) == 0 && 0 < |b.toks|
  {
  }

  lemma NoneEnd(b: Blob, x: nat, phandle: nat)
    requires b.Valid() && NoneUpto(b, x, phandle) && x == |b.toks| - 1
    ensures WithPhandle(b.root, phandle) == Nowhere
  {
    hide Phandle;
    forall q ensures !IsFirst(b.root, phandle, q) {
      if Has(b.root, q) {
        var y := NodeHasToken(b.toks, b.Strings(), b.root, q);
        NotLast(b, y);
      }
    }
  }

  lemma FirstHere(b: Blob, x: nat, phandle: nat, q: Path)
    requires b.Valid() && NoneUpto(b, x, phandle) && NodeAt(b.toks, b.Strings(), b.root, q, x) && Phandle(At(b.root, q)) == phandle
    ensures Has(b.root, q) && WithPhandle(b.root, phandle) == APath(q)
  {
    hide Phandle, Blob.Valid;
    b.ValidParts();
    var ts, strs := b.toks, b.Strings();
    NodeParts(ts, strs, b.root, q, x);
    forall r | Has(b.root, r) && Phandle(At(b.root, r)) == phandle ensures |Before(b.root, q)| <= |Before(b.root, r)| {
      var y := NodeHasToken(ts, strs, b.root, r);
      NodeParts(ts, strs, b.root, r, y);
      if x <= y { ViewMore(ts, x, y, strs); }
    }
    FirstOnce(b.root, phandle, q);
  }

  lemma ViewMore(ts: seq<Token>, i: nat, j: nat, strs: Bytes)
    requires i <= j <= |ts|
    ensures |View(ts[..i], strs)| <= |View(ts[..j], strs)|
  {
    ViewCut(ts, i, j, strs);
  }

  /** fdt_node_offset_by_phandle */
  method NodeByPhandle(b: Blob, phandle: nat) returns (r: int, ghost q: Path)
    requires b.Valid() && 0 < phandle < WORD - 1
    ensures r >= 0 ==> WithPhandle(b.root, phandle) == APath(q) && b.IsNode(r, q)
    ensures r < 0 ==> r == -ERR_NOTFOUND && WithPhandle(b.root, phandle) == Nowhere
  {
    hide *;
    Codes();
    Errors();
    b.ValidParts();
    ghost var x := 0;
    var offset := 0;
    q := [];
    NoneStart(b, phandle);
    while true
      invariant x < |b.toks| && offset == Total(b.toks[..x]) && NoneUpto(b, x, phandle)
      decreases |b.toks| - x
    {
      CodeOf(b.toks[x]);
      NotLast(b, x);
      var tag, next := b.TagAt(offset, x);
      if tag == 9 {
        break;
      }
      if tag == 1 {
        q := BeginIsNode(b.toks, b.Strings(), b.root, x);
        b.IsNodeNow(offset, q, x);
        var value := GetPhandle(b, offset, q);
        if value == phandle {
          FirstHere(b, x, phandle, q);
          return offset, q;
        }
      }
      NoneStep(b, x, phandle, q);
      offset := next;
      x := x + 1;
    }
    NoneEnd(b, x, phandle);
    r := -1;
  }

  // ----- the target of a fragment -----

  datatype Target = On(p: Path) | Missing(err: int)

  /** The string that a property begins with. */
  function CString(v: Bytes): Bytes { v[..NextOf(v, 0, 0)] }

  /** What fdt_overlay_target_offset finds in the tree n for the fragment. */
  ghost function TargetOf(n: Node, fragment: Node): Target {
    var t, v := Lookup(fragment, TARGET), Lookup(fragment, TARGET_PATH);
    if t.Found? && (|t.s| != 4 || Get32(t.s) == WORD - 1) then Missing(-ERR_BADPHANDLE)
    else if t.Found? && Get32(t.s) != 0 then Reach(WithPhandle(n, Get32(t.s)))
    else if v.Failed? then Missing(-ERR_BADOVERLAY)
    else Reach(Descend(n, Names(CString(v.s), 0)))
  }

  function Reach(d: Descent): Target {
    match d
    case APath(p) => On(p)
    case Nowhere => Missing(-ERR_NOTFOUND)
  }

  /** Where the fragment goes by a path, that is a string in the property, and no
      alias. */
  predicate PathOk(fragment: Node) {
    var t, v := Lookup(fragment, TARGET), Lookup(fragment, TARGET_PATH);
    (t.Failed? || (|t.s| == 4 && Get32(t.s) == 0)) && v.Found? ==> v.s != [] && v.s[0] == SLASH && NextOf(v.s, 0, 0) < |v.s|
  }

  lemma TargetIs(n: Node, fragment: Node)
    ensures var t, v, g := Lookup(fragment, TARGET), Lookup(fragment, TARGET_PATH), TargetOf(n, fragment);
      && (t.Failed? ==> t.err == -1) && (v.Failed? ==> v.err == -1)
      && (t.Found? && (|t.s| != 4 || Get32(t.s) == WORD - 1) ==> g == Missing(-6))
      && (t.Found? && |t.s| == 4 && 0 < Get32(t.s) < WORD - 1 ==>
            g == match WithPhandle(n, Get32(t.s)) case APath(p) => On(p) case Nowhere => Missing(-1))
      && (t.Failed? || (|t.s| == 4 && Get32(t.s) == 0) ==>
            g == if v.Failed? then Missing(-16) else match Descend(n, Names(CString(v.s), 0)) case APath(p) => On(p) case Nowhere => Missing(-1))
    ensures PathOk(fragment) ==>
      var t, v := Lookup(fragment, TARGET), Lookup(fragment, TARGET_PATH);
      (t.Failed? || (|t.s| == 4 && Get32(t.s) == 0)) && v.Found? ==>
        CString(v.s) == v.s[..NextOf(v.s, 0, 0)] && CString(v.s) != [] && CString(v.s)[0] == SLASH
  {
    Errors();
  }

  /** fdt_overlay_target_offset */
  method TargetOffset(base: Blob, over: Blob, fragment: nat, ghost q: Path) returns (r: int, ghost p: Path)
    requires base.Valid() && base.IsNode(0, []) && over.Valid() && over.IsNode(fragment, q) && Has(over.root, q)
    requires PathOk(At(over.root, q))
    ensures r >= 0 ==> TargetOf(base.root, At(over.root, q)) == On(p) && base.IsNode(r, p)
    ensures r < 0 ==> TargetOf(base.root, At(over.root, q)) == Missing(r) && r != -ERR_NOSPACE
  {
    hide *;
    Errors();
    TargetIs(base.root, At(over.root, q));
    p := [];
    var val := over.GetProp(fragment, TARGET, q);
    var phandle := 0;
    if val.Found? {
      if |val.s| != 4 {
        return -6, p;
      }
      phandle := Get32(val.s);
      if phandle == 0x1_0000_0000 - 1 {
        return -6, p;
      }
    }
    if phandle != 0 {
      r, p := NodeByPhandle(base, phandle);
      return;
    }
    var path := over.GetProp(fragment, TARGET_PATH, q);
    if path.Failed? {
      return -16, p;
    }
    ghost var x;
    r, x := PathOffset(base, path.s[..NextOf(path.s, 0, 0)]);
    if r >= 0 { p := Descend(base.root, Names(path.s[..NextOf(path.s, 0, 0)], 0)).p; }
  }

  // ----- all fragments -----

  /** One fragment merged: a node without an overlay in it is no fragment. */
  ghost function MergeFragment(n: Node, fragment: Node): Outcome {
    var c := FindKid(fragment.kids, OVERLAY);
    if c == |fragment.kids| then Good(n)
    else
      match TargetOf(n, fragment)
      case Missing(e) => Bad(e)
      case On(p) => if Has(n, p) then Good(Put(n, p, Merge(At(n, p), fragment.kids[c]))) else Good(n)
  }

  /** The fragments in their order, each on what those before it have left. */
  ghost function MergeAll(n: Node, fragments: seq<Node>): Outcome {
    if fragments == [] then Good(n)
    else
      match MergeAll(n, fragments[..|fragments| - 1])
      case Bad(e) => Bad(e)
      case Good(m) => MergeFragment(m, fragments[|fragments| - 1])
  }

  lemma MergeAllStep(n: Node, ks: seq<Node>, k: nat)
    requires k <= |ks|
    ensures MergeAll(n, ks[..0]) == Good(n) && ks[..|ks|] == ks
    ensures k < |ks| && MergeAll(n, ks[..k]).Good? ==> MergeAll(n, ks[..k + 1]) == MergeFragment(MergeAll(n, ks[..k]).n, ks[k])
  {
    if k < |ks| { assert ks[..k + 1][..k] == ks[..k]; }
  }

  lemma {:induction false} MergeAllStops(n: Node, ks: seq<Node>, k: nat)
    requires k <= |ks| && MergeAll(n, ks[..k]).Bad?
    ensures MergeAll(n, ks) == MergeAll(n, ks[..k])
  {
    if k < |ks| {
      assert ks[..|ks| - 1][..k] == ks[..k];
      MergeAllStops(n, ks[..|ks| - 1], k);
    } else {
      assert ks[..k] == ks;
    }
  }

  lemma FragmentIs(n: Node, fragment: Node)
    ensures var c, t := FindKid(fragment.kids, OVERLAY), TargetOf(n, fragment);
      && c <= |fragment.kids|
      && (c == |fragment.kids| ==> MergeFragment(n, fragment) == Good(n))
      && (c < |fragment.kids| && t.Missing? ==> MergeFragment(n, fragment) == Bad(t.err))
      && (c < |fragment.kids| && t.On? && Has(n, t.p) ==> MergeFragment(n, fragment) == Good(Put(n, t.p, Merge(At(n, t.p), fragment.kids[c]))))
  {
  }

  /** An edit below the root leaves the root in its place. */
  lemma {:induction false} RootKept(b: Blob, ts: seq<Token>, strs: Bytes, r: Node, target: nat, p: Path, i: nat, j: nat, m: Node)
    requires NodeAt(ts, strs, r, [], j) && NodeAt(ts, strs, r, p, i) && target == Total(ts[..i])
    requires Changed(b, ts, r, target, p, m)
    ensures b.Valid() && b.IsNode(Total(ts[..j]), [])
    decreases |p|
  {
    hide *;
    ChangedParts(b, ts, r, target, p, m);
    if p == [] {
      OnePlace(ts, strs, r, p, i, j);
    } else {
      var up, c := p[..|p| - 1], p[|p| - 1];
      assert up + [c] == p;
      HasPrefix(r, p, |p| - 1);
      NodeParts(ts, strs, r, p, i);
      var k := NodeHasToken(ts, strs, r, up);
      NodeParts(ts, strs, r, up, k);
      ChangedKid(b, ts, strs, r, Total(ts[..k]), up, k, c, i, target, m);
      RootKept(b, ts, strs, r, Total(ts[..k]), up, k, j, At(r, up).(kids := At(r, up).kids[c := m]));
    }
  }

  predicate FragmentOk(fragment: Node) { FindKid(fragment.kids, OVERLAY) < |fragment.kids| ==> PathOk(fragment) }

  /** A tree that begins with its root. */
  ghost predicate Ready(b: Blob)
    reads b, b.buf
  {
    b.Valid() && b.IsNode(0, [])
  }

  lemma ReadyNow(b: Blob)
    requires b.Valid() && b.IsNode(0, [])
    ensures Ready(b)
  {
  }

  lemma ReadyParts(b: Blob)
    requires Ready(b)
    ensures b.Valid() && b.IsNode(0, [])
  {
  }

  lemma FragmentPath(f: Node)
    requires FragmentOk(f)
    ensures FindKid(f.kids, OVERLAY) < |f.kids| ==> PathOk(f)
  {
  }

  /** One fragment: its overlay is merged into its target. */
  method MergeOne(base: Blob, over: Blob, fragment: nat, ghost q: Path) returns (err: int)
    requires base != over && base.buf != over.buf && base.Valid() && base.IsNode(0, []) && over.Valid() && over.IsNode(fragment, q)
    requires Has(over.root, q) && FragmentOk(At(over.root, q))
    modifies base, base.buf
    ensures base.Valid() && base.IsNode(0, []) && Ready(base)
    ensures err == 0 ==> MergeFragment(old(base.root), At(over.root, q)) == Good(base.root)
    ensures err != 0 && err != -ERR_NOSPACE ==> MergeFragment(old(base.root), At(over.root, q)) == Bad(err) && base.root == old(base.root)
  {
    hide *;
    Errors();
    ghost var r, f := base.root, At(over.root, q);
    FragmentIs(r, f);
    FragmentPath(f);
    ReadyNow(base);
    var overlay: int;
    ghost var x;
    overlay, x := over.SubnodeOffset(fragment, OVERLAY, q);
    if overlay < 0 {
      return 0;
    }
    ghost var c := FindKid(f.kids, OVERLAY);
    KidIsNode(over, overlay, q, c, x);
    PutChild(over.root, q, c, f);
    var target: int;
    ghost var p, m;
    target, p := TargetOffset(base, over, fragment, q);
    if target < 0 {
      return target;
    }
    base.ValidParts();
    ghost var ts, strs := base.toks, base.Strings();
    ghost var i := NodeIndex(base, target, p);
    ghost var j := NodeIndex(base, 0, []);
    NodeParts(ts, strs, r, p, i);
    err, m := ApplyNode(base, target, over, overlay, p, q + [c], f.kids[c]);
    ChangedParts(base, ts, r, target, p, m);
    RootKept(base, ts, strs, r, target, p, i, j, m);
    ReadyNow(base);
  }

  /** overlay_merge */
  method OverlayMerge(base: Blob, over: Blob) returns (err: int)
    requires base != over && base.buf != over.buf && base.Valid() && base.IsNode(0, []) && over.Valid() && over.IsNode(0, [])
    requires forall i :: 0 <= i < |over.root.kids| ==> FragmentOk(over.root.kids[i])
    modifies base, base.buf
    ensures base.Valid() && base.IsNode(0, [])
    ensures err == 0 ==> MergeAll(old(base.root), over.root.kids) == Good(base.root)
    ensures err != 0 && err != -ERR_NOSPACE ==> MergeAll(old(base.root), over.root.kids) == Bad(err)
  {
    hide *;
    Errors();
    over.ValidParts();
    ghost var r, ks := base.root, over.root.kids;
    RootPath(over.root, over.root);
    MergeAllStep(r, ks, 0);
    ghost var i := NodeIndex(over, 0, []);
    ghost var x: nat, k: nat := 0, 0;
    var fragment: int;
    fragment, x := FirstSubnode(over, 0, [], i);
    if fragment >= 0 { KidHereParts(over.toks, over.Strings(), over.root, [], 0, x); }
    err := 0;
    ReadyNow(base);
    while fragment >= 0
      invariant 0 <= k <= |ks| && over.Valid() && Ready(base) && err == 0
      invariant MergeAll(r, ks[..k]) == Good(base.root)
      invariant fragment >= 0 ==> KidHere(over.toks, over.Strings(), over.root, [], k, x)
      invariant fragment >= 0 ==> x < |over.toks| && fragment == Total(over.toks[..x])
      invariant fragment < 0 ==> k == |ks|
      decreases |ks| - k, fragment >= 0
    {
      KidHereParts(over.toks, over.Strings(), over.root, [], k, x);
      KidIsNode(over, fragment, [], k, x);
      MergeAllStep(r, ks, k);
      ReadyParts(base);
      err := MergeOne(base, over, fragment, [] + [k]);
      if err != 0 {
        if err != -3 { MergeAllStops(r, ks, k + 1); }
        return;
      }
      fragment, x := NextSubnode(over, fragment, [], k, x);
      k := k + 1;
      if fragment >= 0 { KidHereParts(over.toks, over.Strings(), over.root, [], k, x); }
    }
    ReadyParts(base);
    MergeAllStep(r, ks, |ks|);
  }

  // ----- the whole application -----

  /** "__fixups__" and "__symbols__" */
  const OUTER_FIXUPS: Bytes := [95, 95, 102, 105, 120, 117, 112, 115, 95, 95]
  const SYMBOLS: Bytes := [95, 95, 115, 121, 109, 98, 111, 108, 115, 95, 95]

  /** The greatest phandle of a tree. */
  ghost predicate IsMax(n: Node, max: nat) {
    && max < WORD && (forall p :: Has(n, p) ==> Phandle(At(n, p)) <= max)
    && (max == 0 || exists p :: Has(n, p) && Phandle(At(n, p)) == max)
  }

  /** The tree after an overlay was applied to n, or the error. */
  ghost function Applied(n: Node, o: Node, max: nat): Outcome {
    match Localized(o, max)
    case Bad(e) => Bad(e)
    case Good(m) => MergeAll(n, m.kids)
  }

  ghost predicate AllFragmentsOk(m: Node) {
    forall i :: 0 <= i < |m.kids| ==> FragmentOk(m.kids[i])
  }

  ghost predicate AdjustedOk(o: Node, max: nat) {
    Localized(o, max).Good? ==> AllFragmentsOk(Localized(o, max).n)
  }

  /** fdt_overlay_apply, for an overlay that neither refers to symbols of the base
      tree nor exports its own. */
  method Apply(base: Blob, over: Blob) returns (err: int, ghost max: nat)
    requires base != over && base.buf != over.buf && base.Valid() && base.IsNode(0, []) && over.Valid() && over.IsNode(0, [])
    requires var ks := over.root.kids; FindKid(ks, OUTER_FIXUPS) == |ks| && FindKid(ks, SYMBOLS) == |ks|
    requires var cf := FindKid(over.root.kids, FIXUPS); cf < |over.root.kids| ==> NotInto(over.root.kids, over.root.kids[cf], cf)
    requires forall d :: IsMax(base.root, d) ==> AdjustedOk(over.root, d)
    modifies base, base.buf, over`toks, over`root, over.buf
    ensures base.Valid() && IsMax(old(base.root), max)
    ensures err == 0 ==> Applied(old(base.root), old(over.root), max) == Good(base.root)
    ensures err != 0 && err != -ERR_NOSPACE ==> Applied(old(base.root), old(over.root), max) == Bad(err)
  {
    hide *;
    Errors();
    ghost var r, o := base.root, over.root;
    max := 0;
    var delta := FindMaxPhandle(base);
    max := delta;
    MaxIs(r, max);
    AppliedIs(r, o, max);
    over.ValidParts();
    ghost var i := NodeIndex(over, 0, []);
    ghost var ts, strs := over.toks, over.Strings();
    ghost var m;
    ReadyNow(base);
    err, m := Localize(over, delta);
    ReadyParts(base);
    if err != 0 {
      return;
    }
    StandsNode(over, ts, strs, o, [], i);
    FragmentsAre(o, max, m);
    err := OverlayMerge(base, over);
  }

  lemma MaxIs(n: Node, max: nat)
    requires max < WORD && forall p :: Has(n, p) ==> Phandle(At(n, p)) <= max
    requires max == 0 || exists p :: Has(n, p) && Phandle(At(n, p)) == max
    ensures IsMax(n, max)
  {
  }

  lemma AppliedIs(n: Node, o: Node, max: nat)
    ensures Localized(o, max).Bad? ==> Applied(n, o, max) == Localized(o, max)
    ensures Localized(o, max).Good? ==> Applied(n, o, max) == MergeAll(n, Localized(o, max).n.kids)
  {
  }

  lemma FragmentsAre(o: Node, max: nat, m: Node)
    requires AdjustedOk(o, max) && Localized(o, max) == Good(m)
    ensures forall i :: 0 <= i < |m.kids| ==> FragmentOk(m.kids[i])
  {
  }
}
