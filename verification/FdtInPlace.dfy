/** Changing the data of a property in place: fdt_setprop_inplace_namelen_partial.
    Nothing moves. */
module FdtInPlace {
  import opened Common
  import opened FdtBytes
  import opened FdtTokens
  import opened FdtTree
  import opened FdtView
  import opened FdtChange
  import opened FdtEdit
  import opened FdtOverlay

  // ----- trees and blocks of the same shape -----

  /** The same nodes and as many properties; only their data may differ. */
  ghost predicate Alike(n: Node, m: Node)
    decreases n
  {
    && n.name == m.name && |n.props| == |m.props| && |n.kids| == |m.kids|
    && forall i :: 0 <= i < |n.kids| ==> Alike(n.kids[i], m.kids[i])
  }

  /** The same tokens, but for the data of properties. */
  ghost predicate SameShape(ts: seq<Token>, us: seq<Token>) {
    |ts| == |us| && forall i :: 0 <= i < |ts| ==> Len(ts[i]) == Len(us[i]) && (ts[i].Prop? <==> us[i].Prop?) && (!ts[i].Prop? ==> ts[i] == us[i])
  }

  lemma {:induction false} AlikeSelf(n: Node)
    ensures Alike(n, n)
    decreases n
  {
    forall i | 0 <= i < |n.kids| ensures Alike(n.kids[i], n.kids[i]) {
      AlikeSelf(n.kids[i]);
    }
  }

  lemma {:induction false} AlikeThen(a: Node, b: Node, c: Node)
    requires Alike(a, b) && Alike(b, c)
    ensures Alike(a, c)
    decreases a
  {
    forall i | 0 <= i < |a.kids| ensures Alike(a.kids[i], c.kids[i]) {
      AlikeThen(a.kids[i], b.kids[i], c.kids[i]);
    }
  }

  lemma {:induction false} AlikePut(n: Node, p: Path, x: Node)
    requires Has(n, p) && Alike(At(n, p), x)
    ensures Alike(n, Put(n, p, x))
    decreases p
  {
    if p != [] {
      AlikePut(n.kids[p[0]], p[1..], x);
      forall i | 0 <= i < |n.kids| ensures Alike(n.kids[i], Put(n, p, x).kids[i]) {
        AlikeSelf(n.kids[i]);
      }
    }
  }

  lemma {:induction false} ItemsAlike(n: Node, m: Node)
    requires Alike(n, m)
    ensures |Items(n)| == |Items(m)|
    decreases n
  {
    PropItemsLength(n.props);
    PropItemsLength(m.props);
    forall i | 0 <= i < |n.kids| ensures Alike(n.kids[i], m.kids[i]) && |Items(n.kids[i])| == |Items(m.kids[i])| {
      ItemsAlike(n.kids[i], m.kids[i]);
    }
    KidItemsLength(n.kids, m.kids);
  }

  lemma {:induction false} PropItemsLength(ps: seq<NodeProp>)
    ensures |PropItems(ps)| == |ps|
  {
    if ps != [] { PropItemsLength(ps[1..]); }
  }

  lemma {:induction false} KidItemsLength(ks: seq<Node>, ls: seq<Node>)
    requires |ks| == |ls| && forall i :: 0 <= i < |ks| ==> |Items(ks[i])| == |Items(ls[i])|
    ensures |KidItems(ks)| == |KidItems(ls)|
    decreases |ks|
  {
    if ks != [] {
      hide Items;
      KidItemsLength(ks[1..], ls[1..]);
    }
  }

  lemma {:induction false} BeforeAlike(n: Node, m: Node, q: Path)
    requires Alike(n, m) && Has(n, q)
    ensures Has(m, q) && |Before(n, q)| == |Before(m, q)| && Alike(At(n, q), At(m, q))
    decreases q
  {
    if q != [] {
      var k := q[0];
      BeforeAlike(n.kids[k], m.kids[k], q[1..]);
      PropItemsLength(n.props);
      PropItemsLength(m.props);
      forall i | 0 <= i < k ensures |Items(n.kids[..k][i])| == |Items(m.kids[..k][i])| {
        ItemsAlike(n.kids[i], m.kids[i]);
      }
      KidItemsLength(n.kids[..k], m.kids[..k]);
    }
  }

  lemma {:induction false} ShapeTotal(ts: seq<Token>, us: seq<Token>)
    requires SameShape(ts, us)
    ensures Total(ts) == Total(us)
  {
    if ts != [] {
      assert forall i :: 0 <= i < |ts| - 1 ==> ts[1..][i] == ts[i + 1] && us[1..][i] == us[i + 1];
      ShapeTotal(ts[1..], us[1..]);
    }
  }

  lemma ShapePart(ts: seq<Token>, us: seq<Token>, i: nat)
    requires SameShape(ts, us) && i <= |ts|
    ensures SameShape(ts[..i], us[..i]) && Total(ts[..i]) == Total(us[..i])
    ensures i < |ts| && ts[i].BeginNode? ==> us[i] == ts[i]
  {
    ShapeTotal(ts[..i], us[..i]);
  }

  lemma {:induction false} ShapeView(ts: seq<Token>, us: seq<Token>, strs: Bytes)
    requires SameShape(ts, us) && Named(ts, strs) && Named(us, strs)
    ensures |View(ts, strs)| == |View(us, strs)|
  {
    if ts != [] {
      assert ts[0] in ts && us[0] in us;
      assert forall t :: t in ts[1..] ==> t in ts;
      assert forall t :: t in us[1..] ==> t in us;
      assert forall i :: 0 <= i < |ts| - 1 ==> ts[1..][i] == ts[i + 1] && us[1..][i] == us[i + 1];
      ShapeView(ts[1..], us[1..], strs);
    }
  }

  /** Every node is still where it was. */
  lemma NodeStands(ts: seq<Token>, us: seq<Token>, strs: Bytes, root: Node, root': Node, q: Path, i: nat)
    requires SameShape(ts, us) && Alike(root, root') && NodeAt(ts, strs, root, q, i) && Represents(us, strs, root')
    ensures NodeAt(us, strs, root', q, i) && Total(us[..i]) == Total(ts[..i])
  {
    hide *;
    NodeParts(ts, strs, root, q, i);
    BeforeAlike(root, root', q);
    ShapePart(ts, us, i);
    ShapeLength(ts, us);
    NamedPart(ts, strs, root, i);
    NamedPart(us, strs, root', i);
    ShapeView(ts[..i], us[..i], strs);
    ItemsAround(root', q, At(root', q));
    PutSame(root', q);
    ViewWhole(us, strs, root');
    ViewCut(us, 0, i, strs);
    assert us[0..] == us && us[0..i] == us[..i];
    Grouped(Before(root', q), Items(At(root', q)), After(root', q));
    SamePrefix(View(us[..i], strs), View(us[i..], strs), Before(root', q), Items(At(root', q)) + After(root', q));
    NodeAtIs(us, strs, root', q, i);
  }

  lemma ShapeLength(ts: seq<Token>, us: seq<Token>)
    requires SameShape(ts, us)
    ensures |ts| == |us|
  {
  }

  lemma ShapeThen(a: seq<Token>, b: seq<Token>, c: seq<Token>)
    requires SameShape(a, b) && SameShape(b, c)
    ensures SameShape(a, c)
  {
  }

  // ----- the change -----

  /** The property k of n with w written over its data at idx. */
  function PatchNode(n: Node, k: nat, idx: nat, w: Bytes): Node
    requires k < |n.props| && idx + |w| <= |n.props[k].value|
  {
    n.(props := n.props[k := P(n.props[k].name, Patched(n.props[k].value, idx, w))])
  }

  lemma PatchAlike(n: Node, k: nat, idx: nat, w: Bytes)
    requires k < |n.props| && idx + |w| <= |n.props[k].value|
    ensures Alike(n, PatchNode(n, k, idx, w))
  {
    forall i | 0 <= i < |n.kids| ensures Alike(n.kids[i], n.kids[i]) {
      AlikeSelf(n.kids[i]);
    }
  }

  lemma PropPatched(b: Bytes, nameoff: nat, v: Bytes, idx: nat, w: Bytes)
    requires Writes(b, Prop(nameoff, v)) && idx + |w| <= |v|
    ensures 12 + idx + |w| <= |b| && Writes(Patched(b, 12 + idx, w), Prop(nameoff, Patched(v, idx, w)))
  {
    hide Word, Up4;
    var c := Patched(b, 12 + idx, w);
    assert c[..4] == b[..4] && c[4..8] == b[4..8] && c[8..12] == b[8..12];
    assert |b[12..12 + |v|]| == |v|;
    forall i | 0 <= i < |v| ensures c[12..12 + |v|][i] == Patched(v, idx, w)[i] {
      assert b[12..12 + |v|][i] == b[12 + i];
    }
  }

  /** All nodes where they were, their data perhaps changed. */
  ghost predicate Stands(b: Blob, ts: seq<Token>, strs: Bytes, root: Node)
    reads b, b.buf
  {
    b.Valid() && b.Strings() == strs && SameShape(ts, b.toks) && Alike(root, b.root)
  }

  lemma StandsNode(b: Blob, ts: seq<Token>, strs: Bytes, root: Node, q: Path, i: nat)
    requires Stands(b, ts, strs, root) && NodeAt(ts, strs, root, q, i)
    ensures b.Valid() && NodeAt(b.toks, b.Strings(), b.root, q, i) && Total(b.toks[..i]) == Total(ts[..i])
    ensures b.IsNode(Total(ts[..i]), q)
  {
    b.ValidParts();
    NodeStands(ts, b.toks, strs, root, b.root, q, i);
    b.IsNodeNow(Total(ts[..i]), q, i);
  }

  lemma StandsThen(b: Blob, ts: seq<Token>, strs: Bytes, root: Node, us: seq<Token>, mid: Node)
    requires SameShape(ts, us) && Alike(root, mid) && Stands(b, us, strs, mid)
    ensures Stands(b, ts, strs, root)
  {
    ShapeThen(ts, us, b.toks);
    AlikeThen(root, mid, b.root);
  }

  lemma StandsParts(b: Blob, ts: seq<Token>, strs: Bytes, root: Node)
    requires Stands(b, ts, strs, root)
    ensures b.Valid() && b.Strings() == strs && SameShape(ts, b.toks) && Alike(root, b.root)
  {
  }

  lemma StandsNow(b: Blob)
    requires b.Valid()
    ensures Stands(b, b.toks, b.Strings(), b.root)
  {
    AlikeSelf(b.root);
  }

  /** (unsigned)proplen < len + idx, in unsigned 32-bit arithmetic */
  predicate TooShort(proplen: nat, idx: nat, len: nat) { proplen < (len + idx) % WORD }

  /** The test lets the copy through although it ends behind the property. */
  predicate Astray(proplen: nat, idx: nat, len: nat) { !TooShort(proplen, idx, len) && proplen < idx + len }

  /** The test is right for properties of every length exactly when idx + len fits
      32 bits.  Beyond that the sum wraps around, and the test still is right for
      those properties that are shorter than the wrapped sum. */
  lemma TooShortExact(proplen: nat, idx: nat, len: nat)
    requires proplen <= INT_MAX && idx < WORD && len <= INT_MAX
    ensures (forall v: nat :: v <= INT_MAX ==> (TooShort(v, idx, len) <==> v < idx + len)) <==> idx + len < WORD
    ensures (TooShort(proplen, idx, len) <==> proplen < idx + len) <==> idx + len < WORD || proplen < idx + len - WORD
    ensures Astray(proplen, idx, len) <==> WORD <= idx + len <= WORD + proplen
  {
    if idx + len < WORD {
      assert (len + idx) % WORD == idx + len;
    } else {
      assert (len + idx) % WORD == idx + len - WORD;
      assert !TooShort(INT_MAX, idx, len);
    }
  }

  /** A word written at 0xfffffffc passes the test of a property of one word. */
  lemma AstrayExample()
    ensures !TooShort(4, 0xffff_fffc, 4) && Astray(4, 0xffff_fffc, 4)
  {
    TooShortExact(4, 0xffff_fffc, 4);
  }

  /** fdt_setprop_inplace_namelen_partial.  A copy that goes astray begins behind
      the end of the buffer, as addresses have 64 bits: the tree does not change,
      and what it hits instead is not part of this model. */
  method Patch(b: Blob, nodeoffset: nat, name: Bytes, idx: nat, w: Bytes, ghost p: Path) returns (err: int, ghost astray: bool)
    requires b.Valid() && b.IsNode(nodeoffset, p) && idx < WORD && |w| <= INT_MAX
    modifies b`toks, b`root, b.buf
    ensures Stands(b, old(b.toks), old(b.Strings()), old(b.root)) && b.IsNode(nodeoffset, p) && Has(old(b.root), p)
    ensures err == PatchError(At(old(b.root), p), name, idx, w)
    ensures astray <==> var r := Lookup(At(old(b.root), p), name); r.Found? && Astray(|r.s|, idx, |w|)
    ensures astray ==> b.buf.Length < idx && b.buf[..] == old(b.buf[..])
    ensures b.root == if err == 0 then Put(old(b.root), p, Patching(At(old(b.root), p), name, idx, w)) else old(b.root)
  {
    hide *;
    ErrorsDiffer();
    b.ValidParts();
    ghost var i, j;
    var o, value;
    o, j, i, value := b.FindProperty(nodeoffset, name, p);
    ghost var n, ts, r, strs := At(b.root, p), b.toks, b.root, b.Strings();
    ghost var k := FindProp(n.props, name);
    PatchIs(n, name, idx, w);
    StandsNow(b);
    astray := false;
    if o < 0 { return o, false; }
    Room(b, j);
    TooShortExact(|value|, idx, |w|);
    if |value| < (|w| + idx) % 0x1_0000_0000 { return -3, false; }
    if |value| < idx + |w| {
      PutSame(r, p);
      return 0, true;
    }
    PropPlace(b.Struct(), ts, j);
    PropRoom(ts[j]);
    b.StructSize();
    b.PutStruct(o + (12 + idx), w);
    ghost var t := Prop(ts[j].nameoff, Patched(ts[j].value, idx, w));
    b.toks := ts[..j] + [t] + ts[j + 1..];
    b.root := Put(r, p, PatchNode(n, k, idx, w));
    PatchedTokens(old(b.Struct()), b.Struct(), ts, j, idx, w);
    PatchedTree(ts, strs, r, p, j, k, idx, w);
    b.StillValid();
    StandsFrom(b, ts, strs, r);
    StandsNode(b, ts, strs, r, p, i);
    err := 0;
  }

  lemma Room(b: Blob, j: nat)
    requires b.Valid() && j < |b.toks| && b.toks[j].Prop?
    ensures |b.toks[j].value| <= b.buf.Length <= INT_MAX == 0x7fff_ffff && WORD == 0x1_0000_0000
  {
    PropPlace(b.Struct(), b.toks, j);
    b.StructSize();
  }

  /** Its error, and what it makes of the node. */
  function PatchError(n: Node, name: Bytes, idx: nat, w: Bytes): int {
    var k := FindProp(n.props, name);
    if k == |n.props| then -ERR_NOTFOUND
    else if TooShort(|n.props[k].value|, idx, |w|) then -ERR_NOSPACE
    else 0
  }

  function Patching(n: Node, name: Bytes, idx: nat, w: Bytes): Node {
    var k := FindProp(n.props, name);
    if k < |n.props| && idx + |w| <= |n.props[k].value| then PatchNode(n, k, idx, w) else n
  }

  lemma PatchIs(n: Node, name: Bytes, idx: nat, w: Bytes)
    ensures var k := FindProp(n.props, name);
      && k <= |n.props|
      && Lookup(n, name) == (if k < |n.props| then Found(n.props[k].value) else Failed(-1))
      && PatchError(n, name, idx, w) == (if k == |n.props| then -1 else if |n.props[k].value| < (|w| + idx) % WORD then -3 else 0)
      && (k < |n.props| ==> Patching(n, name, idx, w) == if idx + |w| <= |n.props[k].value| then PatchNode(n, k, idx, w) else n)
  {
  }

  lemma PropRoom(t: Token)
    requires t.Prop?
    ensures 12 + |t.value| <= Len(t)
  {
  }

  lemma PatchedTokens(s: Bytes, s': Bytes, ts: seq<Token>, j: nat, idx: nat, w: Bytes)
    requires WritesAll(s, ts) && j < |ts| && ts[j].Prop? && idx + |w| <= |ts[j].value|
    requires Total(ts[..j]) + (12 + idx) + |w| <= |s| && s' == Patched(s, Total(ts[..j]) + (12 + idx), w)
    ensures WritesAll(s', ts[..j] + [Prop(ts[j].nameoff, Patched(ts[j].value, idx, w))] + ts[j + 1..])
  {
    hide *;
    var o, t := Total(ts[..j]), ts[j];
    var m := Len(t);
    PropPlace(s, ts, j);
    PropRoom(t);
    SelfReplaced(s, o, m);
    PatchedReplaced(s, s, o, m, m, 12 + idx, w);
    PropPatched(s[o..o + m], t.nameoff, t.value, idx, w);
    SameLen(t.nameoff, t.value, Patched(t.value, idx, w));
    WritesOne(s'[o..o + m], Prop(t.nameoff, Patched(t.value, idx, w)));
    TokensReplaced(s, s', ts, j, j + 1, [Prop(t.nameoff, Patched(t.value, idx, w))], m);
  }

  lemma SameLen(nameoff: nat, v: Bytes, w: Bytes)
    ensures |v| == |w| ==> Len(Prop(nameoff, v)) == Len(Prop(nameoff, w))
  {
  }

  lemma SelfReplaced(s: Bytes, o: nat, m: nat)
    requires o + m <= |s|
    ensures Replaced(s, s, o, m, m)
  {
  }

  lemma PatchedTree(ts: seq<Token>, strs: Bytes, root: Node, p: Path, j: nat, k: nat, idx: nat, w: Bytes)
    requires Represents(ts, strs, root) && Has(root, p) && k < |At(root, p).props| && j < |ts| && ts[j].Prop?
    requires PropsAhead(ts, strs, j, At(root, p).props, k, Behind(root, p)) && ts[j].value == At(root, p).props[k].value
    requires idx + |w| <= |ts[j].value|
    ensures var us := ts[..j] + [Prop(ts[j].nameoff, Patched(ts[j].value, idx, w))] + ts[j + 1..];
      && SameShape(ts, us)
      && Represents(us, strs, Put(root, p, PatchNode(At(root, p), k, idx, w)))
      && Alike(root, Put(root, p, PatchNode(At(root, p), k, idx, w)))
  {
    var v, n := ts[j].value, At(root, p);
    var t := Prop(ts[j].nameoff, Patched(v, idx, w));
    hide Represents, PropsAhead;
    var rest := w + v[idx + |w|..];
    assert v[..idx] + rest == Patched(v, idx, w);
    PropReplaced(ts, strs, root, p, j, k, t, idx, rest);
    PatchAlike(n, k, idx, w);
    AlikePut(root, p, PatchNode(n, k, idx, w));
    ShapeOne(ts, j, t);
  }

  lemma ShapeOne(ts: seq<Token>, j: nat, t: Token)
    requires j < |ts| && ts[j].Prop? && t.Prop? && |t.value| == |ts[j].value|
    ensures SameShape(ts, ts[..j] + [t] + ts[j + 1..])
  {
    var us := ts[..j] + [t] + ts[j + 1..];
    forall i | 0 <= i < |ts| ensures us[i] == if i == j then t else ts[i] {
    }
  }

  lemma StandsFrom(b: Blob, ts: seq<Token>, strs: Bytes, root: Node)
    requires b.Valid() && b.Strings() == strs && SameShape(ts, b.toks) && Alike(root, b.root)
    ensures Stands(b, ts, strs, root)
  {
  }
}
