/** Moving an overlay's references to its own phandles along with them:
    overlay_update_local_node_references. */
module FdtFixups {
  import opened Common
  import opened FdtBytes
  import opened FdtTokens
  import opened FdtTree
  import opened FdtView
  import opened FdtChange
  import opened FdtEdit
  import opened FdtOverlay
  import opened FdtInPlace
  import opened FdtPhandle

  /** "__local_fixups__" */
  const FIXUPS: Bytes := [95, 95, 108, 111, 99, 97, 108, 95, 102, 105, 120, 117, 112, 115, 95, 95]

  // ----- what the fixups say -----

  /** One reference: the word at o in the named property is moved by delta.  One
      that goes astray changes nothing in the tree. */
  function MoveRef(n: Node, name: Bytes, o: nat, delta: nat): Outcome {
    var k := FindProp(n.props, name);
    if k == |n.props| || TooShort(|n.props[k].value|, o, 4) then Bad(-ERR_BADOVERLAY)
    else if |n.props[k].value| < o + 4 then Good(n)
    else Good(PatchNode(n, k, o, Word((Get32(n.props[k].value[o..o + 4]) + delta) % WORD)))
  }

  /** The offsets that the data of a fixup property hold. */
  function Offsets(b: Bytes): (os: seq<nat>)
    ensures |os| == |b| / 4 && forall i :: 0 <= i < |os| ==> os[i] < WORD
  {
    seq(|b| / 4, i requires 0 <= i < |b| / 4 => Get32(b[4 * i..4 * i + 4]))
  }

  /** The references at the offsets os, in their order. */
  function MoveRefs(n: Node, name: Bytes, os: seq<nat>, delta: nat): Outcome {
    if os == [] then Good(n)
    else
      match MoveRefs(n, name, os[..|os| - 1], delta)
      case Bad(e) => Bad(e)
      case Good(m) => MoveRef(m, name, os[|os| - 1], delta)
  }

  function FixProp(n: Node, f: NodeProp, delta: nat): Outcome {
    if |f.value| % 4 != 0 || FindProp(n.props, f.name) == |n.props| then Bad(-ERR_BADOVERLAY)
    else MoveRefs(n, f.name, Offsets(f.value), delta)
  }

  function FixProps(n: Node, fs: seq<NodeProp>, delta: nat): Outcome {
    if fs == [] then Good(n)
    else
      match FixProps(n, fs[..|fs| - 1], delta)
      case Bad(e) => Bad(e)
      case Good(m) => FixProp(m, fs[|fs| - 1], delta)
  }

  /** n with the references moved that the tree of fixups f lists. */
  function Fix(n: Node, f: Node, delta: nat): Outcome
    decreases f, 1
  {
    match FixProps(n, f.props, delta)
    case Bad(e) => Bad(e)
    case Good(m) => FixKids(m, f.kids, delta)
  }

  function FixKids(n: Node, ks: seq<Node>, delta: nat): Outcome
    decreases ks, 0
  {
    if ks == [] then Good(n)
    else
      match FixKids(n, ks[..|ks| - 1], delta)
      case Bad(e) => Bad(e)
      case Good(m) => FixKid(m, ks[|ks| - 1], delta)
  }

  function FixKid(n: Node, k: Node, delta: nat): Outcome
    decreases k, 2
  {
    var c := FindKid(n.kids, k.name);
    if c == |n.kids| then Bad(-ERR_BADOVERLAY)
    else
      match Fix(n.kids[c], k, delta)
      case Bad(e) => Bad(e)
      case Good(x) => Good(n.(kids := n.kids[c := x]))
  }

  // ----- moving references in the block -----

  lemma MoveRefIs(n: Node, name: Bytes, o: nat, delta: nat)
    ensures var r := Lookup(n, name);
      && (r.Failed? ==> MoveRef(n, name, o, delta) == Bad(-16))
      && (r.Found? ==> forall w: Bytes :: |w| == 4 ==> PatchError(n, name, o, w) == if TooShort(|r.s|, o, 4) then -3 else 0)
      && (r.Found? && TooShort(|r.s|, o, 4) ==> MoveRef(n, name, o, delta) == Bad(-16))
      && (r.Found? && Astray(|r.s|, o, 4) ==>
           MoveRef(n, name, o, delta) == Good(n) && forall w: Bytes :: |w| == 4 ==> Patching(n, name, o, w) == n)
      && (r.Found? && o + 4 <= |r.s| && !TooShort(|r.s|, o, 4) ==>
           var w := Word((Get32(r.s[o..o + 4]) + delta) % WORD);
           MoveRef(n, name, o, delta) == Good(Patching(n, name, o, w)))
  {
  }

  /** A reference that ends within the property passes the test, and does not go
      astray. */
  lemma InsidePasses(len: nat, o: nat)
    requires o + 4 <= len <= INT_MAX
    ensures !TooShort(len, o, 4) && !Astray(len, o, 4)
  {
  }

  /** One turn of the loop over the offsets: whether what it reads and what it
      writes lies within the property.  A word read from elsewhere can be any
      word. */
  method MoveOne(b: Blob, node: nat, name: Bytes, o: nat, delta: nat, ghost p: Path)
    returns (err: int, ghost m: Node, ghost read: bool, ghost wrote: bool)
    requires b.Valid() && b.IsNode(node, p) && Has(b.root, p) && o < WORD
    requires FindProp(At(b.root, p).props, name) < |At(b.root, p).props|
    modifies b`toks, b`root, b.buf
    ensures Stands(b, old(b.toks), old(b.Strings()), old(b.root)) && b.IsNode(node, p) && Has(old(b.root), p)
    ensures b.root == Put(old(b.root), p, m)
    ensures MoveRef(At(old(b.root), p), name, o, delta) == if err == 0 then Good(m) else Bad(err)
    ensures err != 0 ==> m == At(old(b.root), p)
    ensures var v := Lookup(At(old(b.root), p), name);
      v.Found? && |v.s| <= INT_MAX && (read <==> o + 4 <= |v.s|) && (wrote <==> !Astray(|v.s|, o, 4))
  {
    hide *;
    Errors();
    b.ValidParts();
    StandsNow(b);
    ghost var r, n := b.root, At(b.root, p);
    PutSame(r, p);
    m := n;
    RaiseIs(n, name, 0);
    MoveRefIs(n, name, o, delta);
    ValueFits(b, p, name);
    var val := b.GetProp(node, name, p);
    var adj: nat :| adj < 0x1_0000_0000;
    if o + 4 <= |val.s| {
      InsidePasses(|val.s|, o);
      adj := Get32(val.s[o..o + 4]);
    }
    err, wrote := Patch(b, node, name, o, Word((adj + delta) % 0x1_0000_0000), p);
    read, wrote := o + 4 <= |val.s|, !wrote;
    AstrayIs(|val.s|, o);
    m := if err == 0 then Patching(n, name, o, Word((adj + delta) % WORD)) else n;
    if err == -3 {
      err := -16;
    }
  }

  lemma AstrayIs(len: nat, o: nat)
    ensures TooShort(len, o, 4) || Astray(len, o, 4) || o + 4 <= len
    ensures Astray(len, o, 4) <==> !TooShort(len, o, 4) && len < o + 4
  {
  }

  /** A property is not longer than the buffer. */
  lemma ValueFits(b: Blob, p: Path, name: Bytes)
    requires b.Valid() && Has(b.root, p)
    ensures Lookup(At(b.root, p), name).Found? ==> |Lookup(At(b.root, p), name).s| <= INT_MAX
  {
    var n := At(b.root, p);
    var k := FindProp(n.props, name);
    if k < |n.props| {
      hide *;
      b.ValidParts();
      PropItem(b.root, p, k);
      ViewWhole(b.toks, b.Strings(), b.root);
      NamedPart(b.toks, b.Strings(), b.root, |b.toks|);
      assert b.toks[..|b.toks|] == b.toks;
      var y := TokenOfItem(b.toks, b.Strings(), |Before(b.root, p)| + 1 + k);
      NamedAt(b.toks, b.Strings(), b.root, y);
      MeaningOne(b.toks[y], b.Strings());
      Room(b, y);
      FoundAt(n, name);
    }
  }

  lemma FoundAt(n: Node, name: Bytes)
    ensures var k := FindProp(n.props, name); Lookup(n, name) == if k < |n.props| then Found(n.props[k].value) else Failed(-1)
  {
  }

  lemma PropItem(root: Node, p: Path, k: nat)
    requires Has(root, p) && k < |At(root, p).props|
    ensures var z := |Before(root, p)| + 1 + k; z < |Items(root)| && Items(root)[z] == Item(At(root, p).props[k])
  {
    hide *;
    var n := At(root, p);
    var z := |Before(root, p)| + 1 + k;
    UptoIs(root, p, k);
    UptoWhole(root, p, k);
    PropHead(n.props, k, Behind(root, p));
    PropItemsLength(n.props[..k]);
    Cons(Item(n.props[k]), PropItems(n.props[k + 1..]) + Behind(root, p));
  }

  /** The references at the offsets before the i-th have passed the test. */
  predicate Reached(len: nat, os: seq<nat>, i: nat) {
    i <= |os| && forall j :: 0 <= j < i ==> !TooShort(len, os[j], 4)
  }

  lemma MoveRefsStep(n: Node, name: Bytes, os: seq<nat>, i: nat, delta: nat)
    requires i < |os|
    ensures MoveRefs(n, name, os[..i], delta).Good? ==>
      MoveRefs(n, name, os[..i + 1], delta) == MoveRef(MoveRefs(n, name, os[..i], delta).n, name, os[i], delta)
  {
    assert os[..i + 1][..i] == os[..i];
  }

  lemma {:induction false} MoveRefsStops(n: Node, name: Bytes, os: seq<nat>, i: nat, delta: nat)
    requires i <= |os| && MoveRefs(n, name, os[..i], delta).Bad?
    ensures MoveRefs(n, name, os, delta) == MoveRefs(n, name, os[..i], delta)
  {
    if i < |os| {
      assert os[..|os| - 1][..i] == os[..i];
      MoveRefsStops(n, name, os[..|os| - 1], i, delta);
    } else {
      assert os[..i] == os;
    }
  }

  /** Moving references changes the data of one property, not its length, and
      nothing else. */
  lemma {:induction false} MoveRefsKeeps(n: Node, name: Bytes, os: seq<nat>, delta: nat)
    requires MoveRefs(n, name, os, delta).Good?
    ensures var m := MoveRefs(n, name, os, delta).n;
      && m.kids == n.kids && m.name == n.name && |m.props| == |n.props|
      && forall i :: 0 <= i < |n.props| ==> m.props[i].name == n.props[i].name && |m.props[i].value| == |n.props[i].value|
  {
    if os != [] { MoveRefsKeeps(n, name, os[..|os| - 1], delta); }
  }

  lemma SameFind(ps: seq<NodeProp>, qs: seq<NodeProp>, name: Bytes)
    requires |ps| == |qs| && forall i :: 0 <= i < |ps| ==> ps[i].name == qs[i].name
    ensures FindProp(ps, name) == FindProp(qs, name)
  {
    var k := FindProp(ps, name);
    if k < |ps| { FindPropIs(qs, name, k); } else { NoProp(qs, name); }
  }

  lemma SameLookup(n: Node, m: Node, name: Bytes)
    requires |n.props| == |m.props|
    requires forall i :: 0 <= i < |n.props| ==> m.props[i].name == n.props[i].name && |m.props[i].value| == |n.props[i].value|
    ensures FindProp(m.props, name) == FindProp(n.props, name)
    ensures Lookup(n, name).Found? <==> Lookup(m, name).Found?
    ensures Lookup(n, name).Found? <==> FindProp(n.props, name) < |n.props|
    ensures Lookup(n, name).Found? ==> |Lookup(m, name).s| == |Lookup(n, name).s|
  {
    SameFind(n.props, m.props, name);
  }

  /** The loop over the offsets of one property.  All its reads lie within the
      property exactly when all the words that are listed do, that is, when it
      succeeds and no write goes astray; a write goes astray exactly if one of the
      offsets it comes to does. */
  method MoveAll(b: Blob, node: nat, name: Bytes, offs: Bytes, delta: nat, ghost p: Path)
    returns (err: int, ghost m: Node, ghost readIn: bool, ghost writeIn: bool)
    requires b.Valid() && b.IsNode(node, p) && Has(b.root, p) && |offs| % 4 == 0
    requires FindProp(At(b.root, p).props, name) < |At(b.root, p).props|
    modifies b`toks, b`root, b.buf
    ensures Stands(b, old(b.toks), old(b.Strings()), old(b.root)) && Has(old(b.root), p)
    ensures b.root == Put(old(b.root), p, m)
    ensures MoveRefs(At(old(b.root), p), name, Offsets(offs), delta) == if err == 0 then Good(m) else Bad(err)
    ensures m.kids == At(old(b.root), p).kids
    ensures var v, os := Lookup(At(old(b.root), p), name), Offsets(offs);
      && v.Found? && (readIn <==> forall i :: 0 <= i < |os| ==> os[i] + 4 <= |v.s|)
      && (writeIn <==> forall i :: 0 <= i < |os| && Reached(|v.s|, os, i) ==> !Astray(|v.s|, os[i], 4))
    ensures readIn <==> err == 0 && writeIn
  {
    hide *;
    Errors();
    b.ValidParts();
    StandsNow(b);
    ghost var ts, strs, r, n := b.toks, b.Strings(), b.root, At(b.root, p);
    ghost var i := NodeIndex(b, node, p);
    PutSame(r, p);
    m := n;
    err := 0;
    readIn, writeIn := true, true;
    var fixup_len := |offs| / 4;
    ghost var os := Offsets(offs);
    SameLookup(n, n, name);
    ghost var len := |Lookup(n, name).s|;
    ValueFits(b, p, name);
    MoveRefsNone(n, name, os, delta);
    InBoundsNone(len, os);
    for k := 0 to fixup_len
      invariant Stands(b, ts, strs, r) && b.Valid() && b.IsNode(node, p) && b.root == Put(r, p, m) && err == 0
      invariant MoveRefs(n, name, os[..k], delta) == Good(m)
      invariant InBounds(len, os, k, true, readIn, writeIn)
    {
      MoveRefsKeeps(n, name, os[..k], delta);
      SameLookup(n, m, name);
      PutPut(r, p, m, m);
      MoveRefsStep(n, name, os, k, delta);
      OffsetIs(offs, k);
      StandsParts(b, ts, strs, r);
      ghost var us, mid, m1 := b.toks, b.root, m;
      ghost var read, wrote;
      err, m, read, wrote := MoveOne(b, node, name, Get32(offs[4 * k..4 * k + 4]), delta, p);
      StandsThen(b, ts, strs, r, us, mid);
      PutPut(r, p, m1, m);
      MoveRefPasses(m1, name, os[k], delta);
      InBoundsStep(len, os, k, readIn, writeIn, read, wrote, err == 0);
      readIn, writeIn := readIn && read, writeIn && wrote;
      if err != 0 {
        MoveRefsStops(n, name, os, k + 1, delta);
        InBoundsParts(len, os, k + 1, false, readIn, writeIn);
        return;
      }
      StandsParts(b, ts, strs, r);
    }
    assert os[..fixup_len] == os;
    MoveRefsKeeps(n, name, os, delta);
    InBoundsParts(len, os, fixup_len, true, readIn, writeIn);
  }

  lemma MoveRefsNone(n: Node, name: Bytes, os: seq<nat>, delta: nat)
    ensures MoveRefs(n, name, os[..0], delta) == Good(n)
  {
  }

  lemma OffsetIs(offs: Bytes, k: nat)
    requires 4 * k + 4 <= |offs|
    ensures k < |Offsets(offs)| == |offs| / 4 && Offsets(offs)[k] == Get32(offs[4 * k..4 * k + 4]) < WORD
  {
  }

  lemma MoveRefPasses(n: Node, name: Bytes, o: nat, delta: nat)
    ensures Lookup(n, name).Found? ==> (MoveRef(n, name, o, delta).Good? <==> !TooShort(|Lookup(n, name).s|, o, 4))
  {
  }

  /** After k offsets: passed tells whether they have all passed the test, and it
      is for the last of them only that they may not have. */
  ghost predicate InBounds(len: nat, os: seq<nat>, k: nat, passed: bool, readIn: bool, writeIn: bool) {
    && k <= |os| && (passed <==> Reached(len, os, k)) && (!passed ==> k > 0 && Reached(len, os, k - 1) && !readIn)
    && (readIn <==> forall i :: 0 <= i < k ==> os[i] + 4 <= len)
    && (writeIn <==> forall i :: 0 <= i < k ==> !Astray(len, os[i], 4))
  }

  lemma InBoundsNone(len: nat, os: seq<nat>)
    ensures InBounds(len, os, 0, true, true, true)
  {
  }

  lemma InBoundsStep(len: nat, os: seq<nat>, k: nat, readIn: bool, writeIn: bool, read: bool, wrote: bool, passed: bool)
    requires len <= INT_MAX && k < |os| && InBounds(len, os, k, true, readIn, writeIn) && (passed <==> !TooShort(len, os[k], 4))
    requires (read <==> os[k] + 4 <= len) && (wrote <==> !Astray(len, os[k], 4))
    ensures InBounds(len, os, k + 1, passed, readIn && read, writeIn && wrote)
  {
    hide TooShort, Astray;
    if read { InsidePasses(len, os[k]); }
  }

  lemma InBoundsParts(len: nat, os: seq<nat>, k: nat, passed: bool, readIn: bool, writeIn: bool)
    requires len <= INT_MAX && InBounds(len, os, k, passed, readIn, writeIn) && (passed ==> k == |os|)
    ensures readIn <==> forall i :: 0 <= i < |os| ==> os[i] + 4 <= len
    ensures writeIn <==> forall i :: 0 <= i < |os| && Reached(len, os, i) ==> !Astray(len, os[i], 4)
    ensures readIn <==> passed && writeIn
  {
    hide TooShort, Astray;
    forall i | 0 <= i < k ensures os[i] + 4 <= len <==> !TooShort(len, os[i], 4) && !Astray(len, os[i], 4) {
      AstrayIs(len, os[i]);
      if os[i] + 4 <= len { InsidePasses(len, os[i]); }
    }
  }

  /** Offsets within four of 2^32 pass the test of a short property: the loop goes
      on, and the tree is as it was. */
  lemma AstrayReference(n: Node, name: Bytes, v: Bytes, o: nat, delta: nat)
    requires Lookup(n, name) == Found(v) && |v| <= INT_MAX && o < WORD
    ensures Astray(|v|, o, 4) <==> WORD <= o + 4 <= WORD + |v|
    ensures Astray(|v|, o, 4) ==> MoveRef(n, name, o, delta) == Good(n)
    ensures Astray(4, 0xffff_fffc, 4)
  {
    TooShortExact(|v|, o, 4);
    AstrayExample();
    MoveRefIs(n, name, o, delta);
  }

  // ----- the properties of a fixup node -----

  /** A property whose node has not changed is read on from where it was. */
  lemma PropsStand(ts: seq<Token>, us: seq<Token>, strs: Bytes, root: Node, root': Node, g: Path, j: nat, k: nat)
    requires SameShape(ts, us) && Alike(root, root') && Represents(ts, strs, root) && Represents(us, strs, root')
    requires Has(root, g) && Has(root', g) && At(root', g) == At(root, g)
    requires PropsAhead(ts, strs, j, At(root, g).props, k, Behind(root, g))
    ensures PropsAhead(us, strs, j, At(root', g).props, k, Behind(root', g))
  {
    hide *;
    var n := At(root, g);
    AheadBounds(ts, strs, j, n.props, k, Behind(root, g));
    PropsBefore(ts, strs, root, g, j, k);
    BeforeAlike(root, root', g);
    ShapeLength(ts, us);
    ShapePart(ts, us, j);
    NamedPart(ts, strs, root, j);
    NamedPart(us, strs, root', j);
    ShapeView(ts[..j], us[..j], strs);
    UptoIs(root, g, k);
    UptoIs(root', g, k);
    UptoWhole(root', g, k);
    ViewWhole(us, strs, root');
    ViewCut(us, 0, j, strs);
    assert us[0..] == us && us[0..j] == us[..j];
    var rest := PropItems(n.props[k..]) + Behind(root', g);
    SamePrefix(View(us[..j], strs), View(us[j..], strs), Upto(root', g, k), rest);
    SameTail(Upto(root', g, k), View(us[j..], strs), rest);
    BehindOpens(root', g);
    PropsAheadFrom(us, strs, j, n.props, k, Behind(root', g));
  }

  lemma BehindOpens(root: Node, g: Path)
    requires Has(root, g)
    ensures Behind(root, g) != [] && !Behind(root, g)[0].Item?
  {
    KidsOpen(At(root, g).kids, [Close] + After(root, g));
    assert KidItems(At(root, g).kids) + [Close] + After(root, g) == KidItems(At(root, g).kids) + ([Close] + After(root, g));
  }

  lemma PropsAheadFrom(ts: seq<Token>, strs: Bytes, j: nat, ps: seq<NodeProp>, k: nat, rest: seq<Item>)
    requires j <= |ts| && k <= |ps| && rest != [] && !rest[0].Item? && View(ts[j..], strs) == PropItems(ps[k..]) + rest
    ensures PropsAhead(ts, strs, j, ps, k, rest)
  {
  }

  lemma UptoWhole(root: Node, g: Path, k: nat)
    requires Has(root, g) && k <= |At(root, g).props|
    ensures Items(root) == Upto(root, g, k) + (PropItems(At(root, g).props[k..]) + Behind(root, g))
  {
    hide Items, KidItems, PropItems, Before, After;
    var n := At(root, g);
    ItemsAround(root, g, n);
    PutSame(root, g);
    ItemsWhole(n);
    PropItemsAppend(n.props[..k], n.props[k..]);
    assert n.props[..k] + n.props[k..] == n.props;
    UptoSplit(Before(root, g), [Open(n.name)], PropItems(n.props[..k]), PropItems(n.props[k..]), KidItems(n.kids) + [Close], After(root, g));
  }

  /** The nodes of the fixups, below the root's child cf, are not those that are
      changed. */
  predicate Away(p: Path, cf: nat) { p != [] ==> p[0] != cf }

  lemma {:induction false} Elsewhere(root: Node, p: Path, m: Node, g: Path, cf: nat)
    requires Has(root, p) && Has(root, g) && g != [] && g[0] == cf && Away(p, cf)
    requires p == [] ==> cf < |m.kids| && m.kids[cf] == root.kids[cf]
    ensures Has(Put(root, p, m), g) && At(Put(root, p, m), g) == At(root, g)
  {
  }

  lemma FixPropsStep(n: Node, fs: seq<NodeProp>, k: nat, delta: nat)
    requires k <= |fs|
    ensures FixProps(n, fs[..0], delta) == Good(n) && fs[..|fs|] == fs
    ensures k < |fs| && FixProps(n, fs[..k], delta).Good? ==>
      FixProps(n, fs[..k + 1], delta) == FixProp(FixProps(n, fs[..k], delta).n, fs[k], delta)
  {
    if k < |fs| { assert fs[..k + 1][..k] == fs[..k]; }
  }

  lemma {:induction false} FixPropsStops(n: Node, fs: seq<NodeProp>, k: nat, delta: nat)
    requires k <= |fs| && FixProps(n, fs[..k], delta).Bad?
    ensures FixProps(n, fs, delta) == FixProps(n, fs[..k], delta)
  {
    if k < |fs| {
      assert fs[..|fs| - 1][..k] == fs[..k];
      FixPropsStops(n, fs[..|fs| - 1], k, delta);
    } else {
      assert fs[..k] == fs;
    }
  }

  lemma FixPropIs(n: Node, f: NodeProp, delta: nat)
    ensures |f.value| % 4 != 0 || FindProp(n.props, f.name) == |n.props| ==> FixProp(n, f, delta) == Bad(-16)
    ensures |f.value| % 4 == 0 && FindProp(n.props, f.name) < |n.props| ==> FixProp(n, f, delta) == MoveRefs(n, f.name, Offsets(f.value), delta)
    ensures Lookup(n, f.name).Found? <==> FindProp(n.props, f.name) < |n.props|
    ensures FindProp(n.props, f.name) <= |n.props|
  {
  }

  /** One property of a fixup node: the list of the references in the property of
      that name. */
  method FixOne(b: Blob, tree_node: nat, name: Bytes, value: Bytes, delta: nat, ghost p: Path, ghost f: NodeProp) returns (err: int, ghost m: Node)
    requires b.Valid() && b.IsNode(tree_node, p) && Has(b.root, p) && name == f.name && value == f.value
    modifies b`toks, b`root, b.buf
    ensures Stands(b, old(b.toks), old(b.Strings()), old(b.root)) && Has(old(b.root), p)
    ensures b.root == Put(old(b.root), p, m) && m.kids == At(old(b.root), p).kids
    ensures FixProp(At(old(b.root), p), f, delta) == if err == 0 then Good(m) else Bad(err)
  {
    hide *;
    Errors();
    b.ValidParts();
    StandsNow(b);
    m := At(b.root, p);
    PutSame(b.root, p);
    FixPropIs(m, f, delta);
    if |value| % 4 != 0 {
      return -16, m;
    }
    var val := b.GetProp(tree_node, name, p);
    if val.Failed? {
      return -16, m;
    }
    ghost var readIn, writeIn;
    err, m, readIn, writeIn := MoveAll(b, tree_node, name, value, delta, p);
  }

  /** The loop over the properties of a fixup node. */
  method FixProperties(b: Blob, tree_node: nat, fixup_node: nat, delta: nat, ghost p: Path, ghost g: Path, ghost cf: nat, ghost f: Node)
    returns (err: int, ghost m: Node)
    requires b.Valid() && b.IsNode(tree_node, p) && b.IsNode(fixup_node, g) && Has(b.root, p) && Has(b.root, g)
    requires f == At(b.root, g) && g != [] && g[0] == cf && Away(p, cf)
    modifies b`toks, b`root, b.buf
    ensures Stands(b, old(b.toks), old(b.Strings()), old(b.root)) && Has(old(b.root), p)
    ensures b.root == Put(old(b.root), p, m) && m.kids == At(old(b.root), p).kids
    ensures FixProps(At(old(b.root), p), f.props, delta) == if err == 0 then Good(m) else Bad(err)
  {
    hide *;
    Errors();
    b.ValidParts();
    StandsNow(b);
    ghost var ts, strs, r, n := b.toks, b.Strings(), b.root, At(b.root, p);
    ghost var i := NodeIndex(b, tree_node, p);
    ghost var ig := NodeIndex(b, fixup_node, g);
    NodeParts(ts, strs, r, g, ig);
    PropsStart(ts, strs, r, g, ig);
    PutSame(r, p);
    FixPropsStep(n, f.props, 0, delta);
    m := n;
    err := 0;
    OnFrom(b, ts, strs, r, p, g, f, n, m);
    var tag, next := b.TagAt(fixup_node, ig);
    ghost var j: nat, k: nat := 0, 0;
    var property: int;
    property, j := b.NextProp(next, g, ig + 1, 0);
    while property >= 0
      invariant 0 <= k <= |f.props| && FixProps(n, f.props[..k], delta) == Good(m) && err == 0
      invariant On(b, ts, strs, r, p, g, f, n, m) && b.Valid() && Has(b.root, g) && At(b.root, g) == f
      invariant property >= 0 ==> k < |f.props| && j < |b.toks| && b.toks[j].Prop? && property == Total(b.toks[..j])
      invariant property >= 0 ==> PropsAhead(b.toks, b.Strings(), j, f.props, k, Behind(b.root, g))
      invariant property < 0 ==> k == |f.props|
      decreases |f.props| - k, property >= 0
    {
      FixPropsStep(n, f.props, k, delta);
      err, next, m := FixTurn(b, tree_node, property, delta, p, g, cf, f, j, k, ts, strs, r, n, m, i);
      if err != 0 {
        FixPropsStops(n, f.props, k + 1, delta);
        OnParts(b, ts, strs, r, p, g, f, n, m);
        return;
      }
      k := k + 1;
      property, j := b.NextProp(next, g, j + 1, k);
    }
    FixPropsStep(n, f.props, |f.props|, delta);
    OnParts(b, ts, strs, r, p, g, f, n, m);
  }

  /** m is what has become of the node n at p; its children and the fixups are as
      they were. */
  ghost predicate On(b: Blob, ts: seq<Token>, strs: Bytes, r: Node, p: Path, g: Path, f: Node, n: Node, m: Node)
    reads b, b.buf
  {
    Stands(b, ts, strs, r) && Has(r, p) && b.root == Put(r, p, m) && m.kids == n.kids && Has(b.root, g) && At(b.root, g) == f
  }

  lemma OnFrom(b: Blob, ts: seq<Token>, strs: Bytes, r: Node, p: Path, g: Path, f: Node, n: Node, m: Node)
    requires Stands(b, ts, strs, r) && Has(r, p) && b.root == Put(r, p, m) && m.kids == n.kids && Has(b.root, g) && At(b.root, g) == f
    ensures On(b, ts, strs, r, p, g, f, n, m)
  {
  }

  lemma OnParts(b: Blob, ts: seq<Token>, strs: Bytes, r: Node, p: Path, g: Path, f: Node, n: Node, m: Node)
    requires On(b, ts, strs, r, p, g, f, n, m)
    ensures Stands(b, ts, strs, r) && Has(r, p) && b.root == Put(r, p, m) && m.kids == n.kids && Has(b.root, g) && At(b.root, g) == f
    ensures b.Valid() && b.Strings() == strs && SameShape(ts, b.toks) && Alike(r, b.root) && Has(b.root, p) && At(b.root, p) == m
  {
    PutPut(r, p, m, m);
  }

  /** One turn of that loop. */
  method FixTurn(b: Blob, tree_node: nat, property: nat, delta: nat, ghost p: Path, ghost g: Path, ghost cf: nat, ghost f: Node, ghost j: nat, ghost k: nat,
                 ghost ts: seq<Token>, ghost strs: Bytes, ghost r: Node, ghost n: Node, ghost m0: Node, ghost i: nat)
    returns (err: int, next: int, ghost m: Node)
    requires On(b, ts, strs, r, p, g, f, n, m0) && b.Valid() && NodeAt(ts, strs, r, p, i) && tree_node == Total(ts[..i])
    requires k < |f.props| && j < |b.toks| && b.toks[j].Prop? && property == Total(b.toks[..j])
    requires Has(b.root, g) && PropsAhead(b.toks, b.Strings(), j, f.props, k, Behind(b.root, g))
    requires g != [] && g[0] == cf && Away(p, cf)
    modifies b`toks, b`root, b.buf
    ensures On(b, ts, strs, r, p, g, f, n, m)
    ensures FixProp(m0, f.props[k], delta) == if err == 0 then Good(m) else Bad(err)
    ensures err == 0 ==> b.Valid() && Has(b.root, g) && At(b.root, g) == f && j + 1 <= |b.toks| && next == Total(b.toks[..j + 1])
    ensures err == 0 ==> PropsAhead(b.toks, b.Strings(), j + 1, f.props, k + 1, Behind(b.root, g))
  {
    hide *;
    OnParts(b, ts, strs, r, p, g, f, n, m0);
    b.ValidParts();
    PropsStep(b.toks, b.Strings(), b.root, j, f.props, k, Behind(b.root, g));
    StandsNode(b, ts, strs, r, p, i);
    ghost var us, mid := b.toks, b.root;
    var name, value := b.ReadProp(property, j);
    next := 0;
    err, m := FixOne(b, tree_node, name.s, value, delta, p, f.props[k]);
    StandsThen(b, ts, strs, r, us, mid);
    PutPut(r, p, m0, m);
    PropsOn(b, us, strs, mid, p, m0, m, g, cf, j, k);
    OnFrom(b, ts, strs, r, p, g, f, n, m);
    if err != 0 {
      return;
    }
    var tag;
    tag, next := b.TagAt(property, j);
  }

  /** The fixups are read on from where they were. */
  lemma PropsOn(b: Blob, us: seq<Token>, strs: Bytes, mid: Node, p: Path, n: Node, m: Node, g: Path, cf: nat, j: nat, k: nat)
    requires Stands(b, us, strs, mid) && Represents(us, strs, mid) && Has(mid, p) && Has(mid, g) && b.root == Put(mid, p, m)
    requires n == At(mid, p) && m.kids == n.kids && g != [] && g[0] == cf && Away(p, cf) && j < |us|
    requires PropsAhead(us, strs, j + 1, At(mid, g).props, k + 1, Behind(mid, g))
    ensures b.Valid() && Has(b.root, g) && At(b.root, g) == At(mid, g)
    ensures PropsAhead(b.toks, b.Strings(), j + 1, At(b.root, g).props, k + 1, Behind(b.root, g))
    ensures j < |b.toks| && Total(b.toks[..j]) == Total(us[..j])
  {
    hide *;
    StandsParts(b, us, strs, mid);
    b.ValidParts();
    AwayKids(p, mid, m, g, cf, n);
    PropsStand(us, b.toks, strs, mid, b.root, g, j + 1, k + 1);
    ShapeLength(us, b.toks);
    ShapePart(us, b.toks, j);
  }

  /** A change that leaves the children alone leaves the fixups alone. */
  lemma AwayKids(p: Path, root: Node, m: Node, g: Path, cf: nat, n: Node)
    requires Has(root, p) && Has(root, g) && g != [] && g[0] == cf && Away(p, cf)
    requires n == At(root, p) && m.kids == n.kids
    ensures Has(Put(root, p, m), g) && At(Put(root, p, m), g) == At(root, g)
  {
    Elsewhere(root, p, m, g, cf);
  }

  // ----- the whole tree of fixups -----

  lemma FixIs(n: Node, f: Node, delta: nat)
    ensures FixProps(n, f.props, delta).Bad? ==> Fix(n, f, delta) == FixProps(n, f.props, delta)
    ensures FixProps(n, f.props, delta).Good? ==> Fix(n, f, delta) == FixKids(FixProps(n, f.props, delta).n, f.kids, delta)
  {
  }

  lemma FixKidsStep(n: Node, ks: seq<Node>, k: nat, delta: nat)
    requires k <= |ks|
    ensures FixKids(n, ks[..0], delta) == Good(n) && ks[..|ks|] == ks
    ensures k < |ks| && FixKids(n, ks[..k], delta).Good? ==> FixKids(n, ks[..k + 1], delta) == FixKid(FixKids(n, ks[..k], delta).n, ks[k], delta)
  {
    if k < |ks| { assert ks[..k + 1][..k] == ks[..k]; }
  }

  lemma {:induction false} FixKidsStops(n: Node, ks: seq<Node>, k: nat, delta: nat)
    requires k <= |ks| && FixKids(n, ks[..k], delta).Bad?
    ensures FixKids(n, ks, delta) == FixKids(n, ks[..k], delta)
  {
    if k < |ks| {
      assert ks[..|ks| - 1][..k] == ks[..k];
      FixKidsStops(n, ks[..|ks| - 1], k, delta);
    } else {
      assert ks[..k] == ks;
    }
  }

  lemma FixKidIs(n: Node, k: Node, delta: nat)
    ensures var c := FindKid(n.kids, k.name);
      && c <= |n.kids|
      && (c == |n.kids| ==> FixKid(n, k, delta) == Bad(-16))
      && (c < |n.kids| && Fix(n.kids[c], k, delta).Bad? ==> FixKid(n, k, delta) == Fix(n.kids[c], k, delta))
      && (c < |n.kids| && Fix(n.kids[c], k, delta).Good? ==>
           FixKid(n, k, delta) == Good(n.(kids := n.kids[c := Fix(n.kids[c], k, delta).n])))
  {
  }

  /** None of the fixups' children stands for the fixups themselves. */
  ghost predicate NotInto(kids: seq<Node>, f: Node, cf: nat) {
    forall i :: 0 <= i < |f.kids| ==> FindKid(kids, f.kids[i].name) != cf
  }

  /** Nodes in the same places have the same names. */
  ghost predicate SameNames(ks: seq<Node>, ls: seq<Node>) {
    |ks| == |ls| && forall i :: 0 <= i < |ks| ==> ks[i].name == ls[i].name
  }

  lemma SameKid(ks: seq<Node>, ls: seq<Node>, name: Bytes)
    requires SameNames(ks, ls)
    ensures FindKid(ks, name) == FindKid(ls, name)
  {
    var c := FindKid(ks, name);
    if c < |ks| { FindKidIs(ls, name, c); } else { NoKid(ls, name); }
  }

  /** The state of a turn: m is what has become of the node at p, the fixups are
      as they were. */
  ghost predicate Turn(b: Blob, ts: seq<Token>, strs: Bytes, r: Node, p: Path, g: Path, cf: nat, f: Node, n: Node, m: Node)
    reads b, b.buf
  {
    && Stands(b, ts, strs, r) && Has(r, p) && b.root == Put(r, p, m) && Has(b.root, g) && At(b.root, g) == f
    && SameNames(n.kids, m.kids) && (p == [] ==> cf < |n.kids| && cf < |m.kids| && m.kids[cf] == n.kids[cf])
  }

  lemma TurnParts(b: Blob, ts: seq<Token>, strs: Bytes, r: Node, p: Path, g: Path, cf: nat, f: Node, n: Node, m: Node)
    requires Turn(b, ts, strs, r, p, g, cf, f, n, m)
    ensures Stands(b, ts, strs, r) && Has(r, p) && b.root == Put(r, p, m) && Has(b.root, g) && At(b.root, g) == f
    ensures Has(b.root, p) && At(b.root, p) == m && SameNames(n.kids, m.kids)
    ensures b.Valid() && b.Strings() == strs && SameShape(ts, b.toks) && Alike(r, b.root) && |b.toks| == |ts|
    ensures p == [] ==> cf < |n.kids| && cf < |m.kids| && m.kids[cf] == n.kids[cf]
  {
    PutPut(r, p, m, m);
  }

  lemma TurnStart(b: Blob, ts: seq<Token>, strs: Bytes, r: Node, p: Path, g: Path, cf: nat, n: Node, m: Node)
    requires Stands(b, ts, strs, r) && Has(r, p) && Has(r, g) && b.root == Put(r, p, m) && n == At(r, p) && m.kids == n.kids
    requires g != [] && g[0] == cf && Away(p, cf) && (p == [] ==> cf < |n.kids|)
    ensures Turn(b, ts, strs, r, p, g, cf, At(r, g), n, m)
  {
    AwayKids(p, r, m, g, cf, n);
  }

  /** After the child c has been dealt with. */
  lemma TurnNext(b: Blob, ts: seq<Token>, strs: Bytes, r: Node, p: Path, g: Path, cf: nat, f: Node, n: Node, m: Node,
                 us: seq<Token>, mid: Node, c: nat, y: Node)
    requires SameShape(ts, us) && Alike(r, mid) && Has(r, p) && mid == Put(r, p, m) && Has(mid, g) && At(mid, g) == f && SameNames(n.kids, m.kids)
    requires p == [] ==> cf < |n.kids| && cf < |m.kids| && m.kids[cf] == n.kids[cf] && c != cf
    requires g != [] && g[0] == cf && Away(p, cf) && c < |m.kids| && y.name == m.kids[c].name
    requires Stands(b, us, strs, mid) && Has(mid, p + [c]) && b.root == Put(mid, p + [c], y)
    ensures Turn(b, ts, strs, r, p, g, cf, f, n, m.(kids := m.kids[c := y]))
  {
    hide *;
    StandsThen(b, ts, strs, r, us, mid);
    PutIn(r, p, m, c, y);
    AwayKid(p, g, cf, 0, c);
    Elsewhere(mid, p + [c], y, g, cf);
    SameNamesPut(n.kids, m.kids, c, y);
    TurnFrom(b, ts, strs, r, p, g, cf, f, n, m.(kids := m.kids[c := y]));
  }

  lemma SameNamesPut(ks: seq<Node>, ls: seq<Node>, c: nat, y: Node)
    requires SameNames(ks, ls) && c < |ls| && y.name == ls[c].name
    ensures SameNames(ks, ls[c := y])
  {
  }

  lemma TurnFrom(b: Blob, ts: seq<Token>, strs: Bytes, r: Node, p: Path, g: Path, cf: nat, f: Node, n: Node, m: Node)
    requires Stands(b, ts, strs, r) && Has(r, p) && b.root == Put(r, p, m) && Has(b.root, g) && At(b.root, g) == f
    requires SameNames(n.kids, m.kids) && (p == [] ==> cf < |n.kids| && cf < |m.kids| && m.kids[cf] == n.kids[cf])
    ensures Turn(b, ts, strs, r, p, g, cf, f, n, m)
  {
  }

  /** overlay_update_local_node_references: moves the references in the node at p
      and below it that the node at g lists, as Fix says; nothing else. */
  method UpdateReferences(b: Blob, tree_node: nat, fixup_node: nat, delta: nat, ghost p: Path, ghost g: Path, ghost cf: nat, ghost f: Node)
    returns (err: int, ghost m: Node)
    requires b.Valid() && b.IsNode(tree_node, p) && b.IsNode(fixup_node, g) && Has(b.root, p) && Has(b.root, g)
    requires f == At(b.root, g) && g != [] && g[0] == cf && Away(p, cf)
    requires p == [] ==> cf < |b.root.kids| && NotInto(b.root.kids, f, cf)
    modifies b`toks, b`root, b.buf
    ensures Has(old(b.root), p) && Turn(b, old(b.toks), old(b.Strings()), old(b.root), p, g, cf, f, At(old(b.root), p), m)
    ensures m.name == At(old(b.root), p).name
    ensures Fix(At(old(b.root), p), f, delta) == if err == 0 then Good(m) else Bad(err)
    decreases f
  {
    hide *;
    Errors();
    b.ValidParts();
    ghost var ts, strs, r, n := b.toks, b.Strings(), b.root, At(b.root, p);
    ghost var i := NodeIndex(b, tree_node, p);
    ghost var ig := NodeIndex(b, fixup_node, g);
    FixIs(n, f, delta);
    AtRoot(r, p);
    err, m := FixProperties(b, tree_node, fixup_node, delta, p, g, cf, f);
    TurnStart(b, ts, strs, r, p, g, cf, n, m);
    StandsAlike(b, ts, strs, r, p, m);
    if err != 0 {
      return;
    }
    ghost var m0 := m;
    FixKidsStep(m0, f.kids, 0, delta);
    StandsNode(b, ts, strs, r, g, ig);
    ghost var x: nat, k: nat := 0, 0;
    var fixup_child: int;
    fixup_child, x := FirstSubnode(b, fixup_node, g, ig);
    if fixup_child >= 0 { KidHereParts(b.toks, b.Strings(), b.root, g, 0, x); }
    TurnParts(b, ts, strs, r, p, g, cf, f, n, m);
    while fixup_child >= 0
      invariant 0 <= k <= |f.kids| && FixKids(m0, f.kids[..k], delta) == Good(m) && err == 0 && m.name == n.name
      invariant Turn(b, ts, strs, r, p, g, cf, f, n, m) && b.Valid()
      invariant fixup_child >= 0 ==> k < |f.kids| && KidHere(b.toks, b.Strings(), b.root, g, k, x)
      invariant fixup_child >= 0 ==> x < |b.toks| && fixup_child == Total(b.toks[..x])
      invariant fixup_child < 0 ==> k == |f.kids|
      decreases |f.kids| - k, fixup_child >= 0
    {
      FixKidsStep(m0, f.kids, k, delta);
        err, m := UpdateChild(b, tree_node, fixup_child, delta, p, g, cf, f, k, x, ts, strs, r, n, m, i);
      if err != 0 {
        FixKidsStops(m0, f.kids, k + 1, delta);
        return;
      }
      TurnParts(b, ts, strs, r, p, g, cf, f, n, m);
      fixup_child, x := NextSubnode(b, fixup_child, g, k, x);
      k := k + 1;
      if fixup_child >= 0 { KidHereParts(b.toks, b.Strings(), b.root, g, k, x); }
    }
    FixKidsStep(m0, f.kids, |f.kids|, delta);
  }

  lemma AtRoot(r: Node, p: Path)
    requires Has(r, p)
    ensures p == [] ==> At(r, p) == r
  {
  }

  lemma StandsAlike(b: Blob, ts: seq<Token>, strs: Bytes, r: Node, p: Path, m: Node)
    requires Stands(b, ts, strs, r) && Has(r, p) && b.root == Put(r, p, m)
    ensures m.name == At(r, p).name
  {
    BeforeAlike(r, b.root, p);
    PutPut(r, p, m, m);
  }

  /** One turn of the loop over the children of a fixup node. */
  method UpdateChild(b: Blob, tree_node: nat, fixup_child: nat, delta: nat, ghost p: Path, ghost g: Path, ghost cf: nat, ghost f: Node, ghost k: nat, ghost x: nat,
                     ghost ts: seq<Token>, ghost strs: Bytes, ghost r: Node, ghost n: Node, ghost m0: Node, ghost i: nat)
    returns (err: int, ghost m: Node)
    requires Turn(b, ts, strs, r, p, g, cf, f, n, m0) && b.Valid() && NodeAt(ts, strs, r, p, i) && tree_node == Total(ts[..i])
    requires k < |f.kids| && KidHere(b.toks, b.Strings(), b.root, g, k, x) && x < |b.toks| && fixup_child == Total(b.toks[..x])
    requires g != [] && g[0] == cf && Away(p, cf) && (p == [] ==> NotInto(n.kids, f, cf)) && m0.name == n.name
    modifies b`toks, b`root, b.buf
    ensures Turn(b, ts, strs, r, p, g, cf, f, n, m) && m.name == n.name
    ensures x < |b.toks| && fixup_child == Total(b.toks[..x]) && Has(b.root, g) && KidHere(b.toks, b.Strings(), b.root, g, k, x)
    ensures FixKid(m0, f.kids[k], delta) == if err == 0 then Good(m) else Bad(err)
    decreases f, 0
  {
    hide *;
    Errors();
    TurnParts(b, ts, strs, r, p, g, cf, f, n, m0);
    KidHereParts(b.toks, b.Strings(), b.root, g, k, x);
    StandsNode(b, ts, strs, r, p, i);
    FixKidIs(m0, f.kids[k], delta);
    m := m0;
    var name := GetName(b, fixup_child, x);
    var tree_child: int;
    ghost var y;
    tree_child, y := b.SubnodeOffset(tree_node, name, p);
    if tree_child < 0 {
      return -16, m;
    }
    ghost var c := FindKid(m0.kids, name);
    KidIsNode(b, tree_child, p, c, y);
    KidIsNode(b, fixup_child, g, k, x);
    SameKid(n.kids, m0.kids, name);
    NotIntoAt(n.kids, f, cf, p, k, c);
    AwayKid(p, g, cf, k, c);
    ghost var us, mid, z := b.toks, b.root, m0;
    PutChild(mid, p, c, m0);
    err, z := UpdateReferences(b, tree_child, fixup_child, delta, p + [c], g + [k], cf, f.kids[k]);
    TurnStands(b, us, strs, mid, p + [c], g + [k], cf, f.kids[k], m0.kids[c], z);
    TurnNext(b, ts, strs, r, p, g, cf, f, n, m0, us, mid, c, z);
    m := m0.(kids := m0.kids[c := z]);
    TurnParts(b, ts, strs, r, p, g, cf, f, n, m);
    StandsNode(b, us, strs, mid, g + [k], x);
    ShapeLength(us, b.toks);
    KidHereFrom(b.toks, b.Strings(), b.root, g, k, x);
  }

  lemma TurnStands(b: Blob, ts: seq<Token>, strs: Bytes, r: Node, p: Path, g: Path, cf: nat, f: Node, n: Node, m: Node)
    requires Turn(b, ts, strs, r, p, g, cf, f, n, m)
    ensures Stands(b, ts, strs, r) && Has(r, p) && b.root == Put(r, p, m)
  {
  }

  lemma NotIntoAt(kids: seq<Node>, f: Node, cf: nat, p: Path, k: nat, c: nat)
    requires k < |f.kids| && (p == [] ==> NotInto(kids, f, cf)) && c == FindKid(kids, f.kids[k].name)
    ensures p == [] ==> c != cf
  {
  }

  lemma AwayKid(p: Path, g: Path, cf: nat, k: nat, c: nat)
    requires g != [] && g[0] == cf && Away(p, cf) && (p == [] ==> c != cf)
    ensures g + [k] != [] && (g + [k])[0] == cf && Away(p + [c], cf) && p + [c] != []
  {
  }

  /** overlay_update_local_references, where the block begins with its root. */
  method UpdateLocalReferences(b: Blob, delta: nat) returns (err: int, ghost m: Node)
    requires b.Valid() && b.IsNode(0, [])
    requires var cf := FindKid(b.root.kids, FIXUPS);
      cf < |b.root.kids| ==> NotInto(b.root.kids, b.root.kids[cf], cf)
    modifies b`toks, b`root, b.buf
    ensures Stands(b, old(b.toks), old(b.Strings()), old(b.root)) && b.root == m
    ensures var cf := FindKid(old(b.root).kids, FIXUPS);
      if cf == |old(b.root).kids| then err == 0 && m == old(b.root)
      else Fix(old(b.root), old(b.root).kids[cf], delta) == if err == 0 then Good(m) else Bad(err)
  {
    hide *;
    b.ValidParts();
    StandsNow(b);
    ghost var r, x := b.root, 0;
    RootPath(r, r);
    m := r;
    var fixups: int;
    fixups, x := b.SubnodeOffset(0, FIXUPS, []);
    if fixups < 0 {
      return 0, m;
    }
    ghost var cf := FindKid(r.kids, FIXUPS);
    KidIsNode(b, fixups, [], cf, x);
    PutChild(r, [], cf, r);
    CfPath(cf);
    ghost var ts, strs := b.toks, b.Strings();
    err, m := UpdateReferences(b, 0, fixups, delta, [], [cf], cf, r.kids[cf]);
    RootPath(r, m);
    TurnStands(b, ts, strs, r, [], [cf], cf, r.kids[cf], r, m);
  }

  lemma RootPath(r: Node, m: Node)
    ensures Has(r, []) && At(r, []) == r && Put(r, [], m) == m
  {
  }

  lemma CfPath(cf: nat)
    ensures [] + [cf] == [cf] && [cf] != [] && [cf][0] == cf && Away([], cf)
  {
  }
}
