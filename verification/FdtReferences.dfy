/** Where the references of an overlay stand after its phandles were raised and
    the references moved along with them. */
module FdtReferences {
  import opened FdtBytes
  import opened FdtTokens
  import opened FdtTree
  import opened FdtView
  import opened FdtChange
  import opened FdtEdit
  import opened FdtOverlay
  import opened FdtInPlace
  import opened FdtPhandle
  import opened FdtFixups

  // ----- the words of one property -----

  /** The data of a property with the words at the offsets os moved, in order. */
  function Moved(v: Bytes, os: seq<nat>, delta: nat): (r: StringResult)
    ensures r.Found? ==> |r.s| == |v|
    ensures r.Failed? ==> r.err == -ERR_BADOVERLAY
  {
    if os == [] then Found(v)
    else
      var w, o := Moved(v, os[..|os| - 1], delta), os[|os| - 1];
      if w.Failed? then w
      else if TooShort(|v|, o, 4) then Failed(-ERR_BADOVERLAY)
      else if |v| < o + 4 then w
      else Found(Patched(w.s, o, Word((Get32(w.s[o..o + 4]) + delta) % WORD)))
  }

  lemma {:induction false} MovedConcat(v: Bytes, os: seq<nat>, ps: seq<nat>, delta: nat)
    ensures Moved(v, os, delta).Found? ==> Moved(v, os + ps, delta) == Moved(Moved(v, os, delta).s, ps, delta)
    ensures Moved(v, os, delta).Failed? ==> Moved(v, os + ps, delta).Failed?
  {
    if ps == [] {
      assert os + ps == os;
    } else {
      var last := |ps| - 1;
      assert (os + ps)[..|os + ps| - 1] == os + ps[..last];
      MovedConcat(v, os, ps[..last], delta);
    }
  }

  /** How often the word at a is listed. */
  function Times(os: seq<nat>, a: nat): nat {
    if os == [] then 0 else Times(os[..|os| - 1], a) + if os[|os| - 1] == a then 1 else 0
  }

  /** No listed word overlaps the one at a without being that word. */
  predicate Separate(os: seq<nat>, a: nat) {
    forall i :: 0 <= i < |os| ==> os[i] == a || os[i] + 4 <= a || a + 4 <= os[i]
  }

  lemma PatchedWord(v: Bytes, o: nat, w: Bytes, a: nat)
    requires o + 4 <= |v| && |w| == 4 && a + 4 <= |v|
    ensures Patched(v, o, w)[o..o + 4] == w
    ensures a + 4 <= o || o + 4 <= a ==> Patched(v, o, w)[a..a + 4] == v[a..a + 4]
  {
    var u := Patched(v, o, w);
    if a + 4 <= o || o + 4 <= a {
      forall k | a <= k < a + 4 ensures u[k] == v[k] {
      }
    }
  }

  lemma ModSum(v: nat, x: nat, delta: nat)
    ensures ((v + x) % WORD + delta) % WORD == (v + (x + delta)) % WORD
  {
  }

  lemma OneMore(t: nat, delta: nat)
    ensures (t + 1) * delta == t * delta + delta
  {
  }

  /** A word ends greater by delta for every time that it is listed. */
  lemma {:induction false} MovedWords(v: Bytes, os: seq<nat>, delta: nat, a: nat)
    requires Moved(v, os, delta).Found? && Separate(os, a) && a + 4 <= |v|
    ensures Get32(Moved(v, os, delta).s[a..a + 4]) == (Get32(v[a..a + 4]) + Times(os, a) * delta) % WORD
  {
    hide Patched, Get32, Word, TooShort;
    if os != [] {
      var o, w := os[|os| - 1], Moved(v, os[..|os| - 1], delta).s;
      MovedWords(v, os[..|os| - 1], delta, a);
      if o + 4 <= |v| {
        var word := Word((Get32(w[o..o + 4]) + delta) % WORD);
        WordBack((Get32(w[o..o + 4]) + delta) % WORD);
        PatchedWord(w, o, word, a);
        if o == a {
          var t := Times(os[..|os| - 1], a);
          ModSum(Get32(v[a..a + 4]), t * delta, delta);
          OneMore(t, delta);
        }
      }
    }
  }

  // ----- what the fixups list -----

  /** The offsets that the properties fs list for the property of that name. */
  function PropLists(fs: seq<NodeProp>, name: Bytes): (os: seq<nat>)
    ensures forall i :: 0 <= i < |os| ==> os[i] < WORD
  {
    if fs == [] then []
    else
      var f := fs[|fs| - 1];
      PropLists(fs[..|fs| - 1], name) + if f.name == name then Offsets(f.value) else []
  }

  /** The offsets that the fixups f of n list for a property of the node at q, in
      the order in which they are followed. */
  function Listed(n: Node, f: Node, q: Path, name: Bytes): (os: seq<nat>)
    requires Has(n, q)
    ensures forall i :: 0 <= i < |os| ==> os[i] < WORD
    decreases |q|, 1, 0
  {
    if q == [] then PropLists(f.props, name) else KidLists(n, f.kids, q, name)
  }

  function KidLists(n: Node, ks: seq<Node>, q: Path, name: Bytes): (os: seq<nat>)
    requires q != [] && Has(n, q)
    ensures forall i :: 0 <= i < |os| ==> os[i] < WORD
    decreases |q|, 0, |ks|
  {
    if ks == [] then []
    else
      var k := ks[|ks| - 1];
      KidLists(n, ks[..|ks| - 1], q, name)
      + if FindKid(n.kids, k.name) == q[0] then Listed(n.kids[q[0]], k, q[1..], name) else []
  }

  lemma AlikeKids(n: Node, m: Node)
    requires Alike(n, m)
    ensures SameNames(n.kids, m.kids)
  {
  }

  /** What is listed depends on the names in the tree, not on its data. */
  lemma {:induction false} ListedAlike(n: Node, m: Node, f: Node, q: Path, name: Bytes)
    requires Alike(n, m) && Has(n, q)
    ensures Has(m, q) && Listed(n, f, q, name) == Listed(m, f, q, name)
    decreases |q|, 1, 0
  {
    BeforeAlike(n, m, q);
    if q != [] { KidListsAlike(n, m, f.kids, q, name); }
  }

  lemma {:induction false} KidListsAlike(n: Node, m: Node, ks: seq<Node>, q: Path, name: Bytes)
    requires Alike(n, m) && q != [] && Has(n, q) && Has(m, q)
    ensures KidLists(n, ks, q, name) == KidLists(m, ks, q, name)
    decreases |q|, 0, |ks|
  {
    if ks != [] {
      var k := ks[|ks| - 1];
      KidListsAlike(n, m, ks[..|ks| - 1], q, name);
      AlikeKids(n, m);
      SameKid(n.kids, m.kids, k.name);
      ListedAlike(n.kids[q[0]], m.kids[q[0]], k, q[1..], name);
    }
  }

  // ----- the references of a whole tree -----

  /** What a property reads as, once the words at os have moved. */
  function MovedIn(r: StringResult, os: seq<nat>, delta: nat): StringResult {
    if r.Found? then Moved(r.s, os, delta) else r
  }

  lemma MovedInMore(r: StringResult, os: seq<nat>, ps: seq<nat>, delta: nat)
    requires MovedIn(r, os, delta).Found? || r.Failed?
    ensures MovedIn(r, os + ps, delta) == MovedIn(MovedIn(r, os, delta), ps, delta)
  {
    if r.Found? { MovedConcat(r.s, os, ps, delta); }
  }

  lemma MovedInNone(r: StringResult, delta: nat)
    ensures MovedIn(r, [], delta) == r
  {
  }

  lemma MoveRefReads(n: Node, name: Bytes, o: nat, delta: nat, v: Bytes, other: Bytes)
    requires Lookup(n, name) == Found(v) && MoveRef(n, name, o, delta).Good?
    ensures !TooShort(|v|, o, 4)
    ensures var m := MoveRef(n, name, o, delta).n;
      && Lookup(m, name) == (if |v| < o + 4 then Found(v) else Found(Patched(v, o, Word((Get32(v[o..o + 4]) + delta) % WORD))))
      && (other != name ==> Lookup(m, other) == Lookup(n, other))
      && Alike(n, m)
  {
    var k, m := FindProp(n.props, name), MoveRef(n, name, o, delta).n;
    AlikeSelf(n);
    if o + 4 <= |v| {
      hide TooShort;
      PatchAlike(n, k, o, Word((Get32(v[o..o + 4]) + delta) % WORD));
      FindPropIs(m.props, name, k);
      if other != name {
        var j := FindProp(n.props, other);
        if j < |n.props| { FindPropIs(m.props, other, j); } else { NoProp(m.props, other); }
      }
    }
  }

  lemma {:induction false} MoveRefsReads(n: Node, name: Bytes, os: seq<nat>, delta: nat, v: Bytes, other: Bytes)
    requires Lookup(n, name) == Found(v) && MoveRefs(n, name, os, delta).Good?
    ensures var m := MoveRefs(n, name, os, delta).n;
      && Moved(v, os, delta).Found? && Lookup(m, name) == Moved(v, os, delta)
      && (other != name ==> Lookup(m, other) == Lookup(n, other))
      && Alike(n, m)
  {
    hide Lookup, MoveRef, Patched, TooShort, Alike;
    AlikeSelf(n);
    if os != [] {
      MoveRefsReads(n, name, os[..|os| - 1], delta, v, other);
      var u, w, o := MoveRefs(n, name, os[..|os| - 1], delta).n, Moved(v, os[..|os| - 1], delta).s, os[|os| - 1];
      MoveRefReads(u, name, o, delta, w, other);
      AlikeThen(n, u, MoveRef(u, name, o, delta).n);
    }
  }

  lemma FixPropReads(n: Node, f: NodeProp, delta: nat, other: Bytes)
    requires FixProp(n, f, delta).Good?
    ensures var m := FixProp(n, f, delta).n;
      && m.kids == n.kids && Alike(n, m)
      && Lookup(m, other) == MovedIn(Lookup(n, other), if f.name == other then Offsets(f.value) else [], delta)
      && (Lookup(m, other).Found? <==> Lookup(n, other).Found?)
  {
    hide Moved, MoveRefs, Alike, Offsets;
    FixPropIs(n, f, delta);
    MoveRefsReads(n, f.name, Offsets(f.value), delta, Lookup(n, f.name).s, other);
    MoveRefsKeeps(n, f.name, Offsets(f.value), delta);
    MovedInNone(Lookup(n, other), delta);
  }

  lemma {:induction false} FixPropsReads(n: Node, fs: seq<NodeProp>, delta: nat, other: Bytes)
    requires FixProps(n, fs, delta).Good?
    ensures var m := FixProps(n, fs, delta).n;
      && m.kids == n.kids && Alike(n, m)
      && Lookup(m, other) == MovedIn(Lookup(n, other), PropLists(fs, other), delta)
      && (Lookup(m, other).Found? <==> Lookup(n, other).Found?)
  {
    hide Moved, FixProp, Alike, Offsets, Lookup;
    AlikeSelf(n);
    MovedInNone(Lookup(n, other), delta);
    if fs != [] {
      var last := |fs| - 1;
      FixPropsReads(n, fs[..last], delta, other);
      var u, f := FixProps(n, fs[..last], delta).n, fs[last];
      FixPropReads(u, f, delta, other);
      AlikeThen(n, u, FixProp(u, f, delta).n);
      MovedInMore(Lookup(n, other), PropLists(fs[..last], other), if f.name == other then Offsets(f.value) else [], delta);
    }
  }

  lemma {:induction false} FixAlike(n: Node, f: Node, delta: nat)
    requires Fix(n, f, delta).Good?
    ensures Alike(n, Fix(n, f, delta).n)
    decreases f, 1
  {
    var m := FixProps(n, f.props, delta).n;
    FixPropsReads(n, f.props, delta, []);
    FixKidsAlike(m, f.kids, delta);
    AlikeThen(n, m, Fix(n, f, delta).n);
  }

  lemma {:induction false} FixKidsAlike(n: Node, ks: seq<Node>, delta: nat)
    requires FixKids(n, ks, delta).Good?
    ensures Alike(n, FixKids(n, ks, delta).n) && FixKids(n, ks, delta).n.props == n.props
    decreases ks, 0
  {
    AlikeSelf(n);
    if ks != [] {
      var u, k := FixKids(n, ks[..|ks| - 1], delta).n, ks[|ks| - 1];
      FixKidsAlike(n, ks[..|ks| - 1], delta);
      var c := FindKid(u.kids, k.name);
      FixAlike(u.kids[c], k, delta);
      KidAlike(u, c, Fix(u.kids[c], k, delta).n);
      AlikeThen(n, u, FixKids(n, ks, delta).n);
    }
  }

  lemma KidAlike(n: Node, c: nat, x: Node)
    requires c < |n.kids| && Alike(n.kids[c], x)
    ensures Alike(n, n.(kids := n.kids[c := x]))
  {
    forall i | 0 <= i < |n.kids| ensures Alike(n.kids[i], n.kids[c := x][i]) {
      AlikeSelf(n.kids[i]);
    }
  }

  /** What overlay_update_local_node_references leaves of every property of every
      node: its data with the words moved that the fixups list for it, and nothing
      else. */
  lemma {:induction false} FixReads(n: Node, f: Node, delta: nat, q: Path, name: Bytes)
    requires Fix(n, f, delta).Good? && Has(n, q)
    ensures var m := Fix(n, f, delta).n;
      && Has(m, q) && Lookup(At(m, q), name) == MovedIn(Lookup(At(n, q), name), Listed(n, f, q, name), delta)
      && (Lookup(At(m, q), name).Found? <==> Lookup(At(n, q), name).Found?)
    decreases |q|, 1, 0
  {
    hide Lookup, MovedIn, Alike;
    var m := FixProps(n, f.props, delta).n;
    FixPropsReads(n, f.props, delta, name);
    if q == [] {
      FixKidsAlike(m, f.kids, delta);
      PropsLookup(m, Fix(n, f, delta).n, name);
    } else {
      BeforeAlike(n, m, q);
      FixKidsReads(m, f.kids, delta, q, name);
      KidListsAlike(n, m, f.kids, q, name);
    }
  }

  lemma PropsLookup(n: Node, m: Node, name: Bytes)
    requires n.props == m.props
    ensures Lookup(n, name) == Lookup(m, name)
  {
  }

  lemma {:induction false} FixKidsReads(n: Node, ks: seq<Node>, delta: nat, q: Path, name: Bytes)
    requires FixKids(n, ks, delta).Good? && q != [] && Has(n, q)
    ensures var m := FixKids(n, ks, delta).n;
      && Has(m, q) && Lookup(At(m, q), name) == MovedIn(Lookup(At(n, q), name), KidLists(n, ks, q, name), delta)
      && (Lookup(At(m, q), name).Found? <==> Lookup(At(n, q), name).Found?)
    decreases |q|, 0, |ks|
  {
    hide Lookup, MovedIn, Alike, Fix, Listed;
    MovedInNone(Lookup(At(n, q), name), delta);
    if ks != [] {
      var ls, k := ks[..|ks| - 1], ks[|ks| - 1];
      var u := FixKids(n, ls, delta).n;
      FixKidsAlike(n, ls, delta);
      FixKidsReads(n, ls, delta, q, name);
      AlikeKids(n, u);
      SameKid(n.kids, u.kids, k.name);
      FixKidReads(u, k, delta, q, name);
      ListedBelow(n, u, k, q, name);
      MovedInFound(Lookup(At(n, q), name), KidLists(n, ls, q, name), delta);
      var os := if FindKid(n.kids, k.name) == q[0] then Listed(n.kids[q[0]], k, q[1..], name) else [];
      MovedInMore(Lookup(At(n, q), name), KidLists(n, ls, q, name), os, delta);
    }
  }

  lemma MovedInFound(r: StringResult, os: seq<nat>, delta: nat)
    requires MovedIn(r, os, delta).Found? <==> r.Found?
    ensures MovedIn(r, os, delta).Found? || r.Failed?
  {
  }

  lemma ListedBelow(n: Node, u: Node, k: Node, q: Path, name: Bytes)
    requires Alike(n, u) && q != [] && Has(n, q) && Has(u, q)
    ensures Listed(n.kids[q[0]], k, q[1..], name) == Listed(u.kids[q[0]], k, q[1..], name)
  {
    ListedAlike(n.kids[q[0]], u.kids[q[0]], k, q[1..], name);
  }

  lemma {:induction false} FixKidReads(u: Node, k: Node, delta: nat, q: Path, name: Bytes)
    requires FixKid(u, k, delta).Good? && q != [] && Has(u, q)
    ensures var m, os := FixKid(u, k, delta).n, if FindKid(u.kids, k.name) == q[0] then Listed(u.kids[q[0]], k, q[1..], name) else [];
      && Has(m, q) && Lookup(At(m, q), name) == MovedIn(Lookup(At(u, q), name), os, delta)
      && (Lookup(At(m, q), name).Found? <==> Lookup(At(u, q), name).Found?)
    decreases |q|, 0, 0
  {
    hide Lookup, MovedIn, Fix, Listed;
    MovedInNone(Lookup(At(u, q), name), delta);
    var c := FindKid(u.kids, k.name);
    if c == q[0] { FixReads(u.kids[c], k, delta, q[1..], name); }
  }

  // ----- raising phandles, property by property -----

  predicate IsPhandle(name: Bytes) { name == PHANDLE || name == LINUX_PHANDLE }

  /** What a property reads as once the phandles have been raised. */
  function RaisedIn(r: StringResult, name: Bytes, delta: nat): StringResult {
    if IsPhandle(name) && r.Found? && |r.s| == 4 && Get32(r.s) + delta < WORD then Found(Word(Get32(r.s) + delta)) else r
  }

  /** It is a word, and no greater than a phandle may be. */
  predicate CanRaise(r: StringResult, name: Bytes, delta: nat) {
    IsPhandle(name) && r.Found? ==> |r.s| == 4 && Get32(r.s) + delta < WORD - 1
  }

  /** The same names throughout, and the same data but for phandles. */
  ghost predicate SameBut(n: Node, m: Node)
    decreases n
  {
    && SameButProps(n, m) && n.name == m.name && |n.kids| == |m.kids|
    && forall i :: 0 <= i < |n.kids| ==> SameBut(n.kids[i], m.kids[i])
  }

  ghost predicate SameButProps(n: Node, m: Node) {
    && |n.props| == |m.props|
    && forall i :: 0 <= i < |n.props| ==>
         n.props[i].name == m.props[i].name && (!IsPhandle(n.props[i].name) ==> n.props[i].value == m.props[i].value)
  }

  lemma {:induction false} SameButAlike(n: Node, m: Node)
    requires SameBut(n, m)
    ensures Alike(n, m)
    decreases n
  {
    forall i | 0 <= i < |n.kids| ensures Alike(n.kids[i], m.kids[i]) {
      SameButAlike(n.kids[i], m.kids[i]);
    }
  }

  lemma RaiseLookup(n: Node, name: Bytes, delta: nat, other: Bytes)
    requires IsPhandle(name) && Raise(n, name, delta).Good?
    ensures var m := Raise(n, name, delta).n;
      && SameButProps(n, m) && m.kids == n.kids && m.name == n.name
      && Lookup(m, other) == (if other == name then RaisedIn(Lookup(n, other), other, delta) else Lookup(n, other))
      && (other == name ==> CanRaise(Lookup(n, name), name, delta))
  {
    hide PHANDLE, LINUX_PHANDLE;
    var m, k := Raise(n, name, delta).n, FindProp(n.props, name);
    if k < |n.props| {
      FindPropIs(m.props, name, k);
      var w := Word(Get32(n.props[k].value) + delta);
      assert Patched(n.props[k].value, 0, w) == w;
      if other != name {
        var j := FindProp(n.props, other);
        if j < |n.props| { FindPropIs(m.props, other, j); } else { NoProp(m.props, other); }
      }
    }
  }

  lemma BothLookup(n: Node, delta: nat, other: Bytes)
    requires RaiseBoth(n, delta).Good?
    ensures var m := RaiseBoth(n, delta).n;
      && SameButProps(n, m) && m.kids == n.kids && m.name == n.name
      && Lookup(m, other) == RaisedIn(Lookup(n, other), other, delta) && CanRaise(Lookup(n, other), other, delta)
  {
    hide PHANDLE, LINUX_PHANDLE, Raise, Lookup;
    NamesDiffer();
    var m := Raise(n, PHANDLE, delta).n;
    RaiseLookup(n, PHANDLE, delta, other);
    RaiseLookup(m, LINUX_PHANDLE, delta, other);
  }

  /** What overlay_adjust_node_phandles leaves of every property of every node. */
  lemma {:induction false} AdjustReads(n: Node, delta: nat, q: Path, name: Bytes)
    requires Adjust(n, delta).Good? && Has(n, q)
    ensures var m := Adjust(n, delta).n;
      && Has(m, q) && Lookup(At(m, q), name) == RaisedIn(Lookup(At(n, q), name), name, delta)
      && CanRaise(Lookup(At(n, q), name), name, delta)
    decreases q
  {
    hide Lookup, RaisedIn, CanRaise, RaiseBoth;
    var m := RaiseBoth(n, delta).n;
    BothLookup(n, delta, name);
    AdjustKidsRest(m, n.kids, delta);
    if q == [] {
      PropsLookup(m, Adjust(n, delta).n, name);
    } else {
      AdjustKidAt(m, n.kids, delta, q[0]);
      AdjustReads(n.kids[q[0]], delta, q[1..], name);
    }
  }

  lemma {:induction false} AdjustSame(n: Node, delta: nat)
    requires Adjust(n, delta).Good?
    ensures SameBut(n, Adjust(n, delta).n)
    decreases n
  {
    hide Lookup, RaisedIn, CanRaise, RaiseBoth, IsPhandle;
    var m, u := RaiseBoth(n, delta).n, Adjust(n, delta).n;
    BothLookup(n, delta, []);
    AdjustKidsRest(m, n.kids, delta);
    forall i | 0 <= i < |n.kids| ensures SameBut(n.kids[i], u.kids[i]) {
      AdjustKidAt(m, n.kids, delta, i);
      AdjustSame(n.kids[i], delta);
    }
  }

  /** What is listed for other properties than phandles is as it was. */
  lemma {:induction false} ListedSame(n: Node, f: Node, g: Node, q: Path, name: Bytes)
    requires SameBut(f, g) && Has(n, q) && !IsPhandle(name)
    ensures Listed(n, f, q, name) == Listed(n, g, q, name)
    decreases |q|, 1, 0
  {
    hide IsPhandle;
    if q == [] {
      PropListsSame(f.props, g.props, name);
    } else {
      KidListsSame(n, f.kids, g.kids, q, name);
    }
  }

  lemma {:induction false} KidListsSame(n: Node, ks: seq<Node>, ls: seq<Node>, q: Path, name: Bytes)
    requires |ks| == |ls| && (forall i :: 0 <= i < |ks| ==> SameBut(ks[i], ls[i])) && q != [] && Has(n, q) && !IsPhandle(name)
    ensures KidLists(n, ks, q, name) == KidLists(n, ls, q, name)
    decreases |q|, 0, |ks|
  {
    hide IsPhandle, Listed;
    if ks != [] {
      var last := |ks| - 1;
      KidListsSame(n, ks[..last], ls[..last], q, name);
      assert SameBut(ks[last], ls[last]);
      ListedSame(n.kids[q[0]], ks[last], ls[last], q[1..], name);
    }
  }

  lemma {:induction false} PropListsSame(fs: seq<NodeProp>, gs: seq<NodeProp>, name: Bytes)
    requires |fs| == |gs| && !IsPhandle(name)
    requires forall i :: 0 <= i < |fs| ==>
      fs[i].name == gs[i].name && (!IsPhandle(fs[i].name) ==> fs[i].value == gs[i].value)
    ensures PropLists(fs, name) == PropLists(gs, name)
  {
    hide IsPhandle, Offsets;
    if fs != [] { PropListsSame(fs[..|fs| - 1], gs[..|gs| - 1], name); }
  }

  // ----- both passes -----

  /** overlay_adjust_local_phandles and overlay_update_local_references */
  function Localized(o: Node, delta: nat): Outcome {
    match Adjust(o, delta)
    case Bad(e) => Bad(e)
    case Good(n) =>
      var cf := FindKid(n.kids, FIXUPS);
      if cf == |n.kids| then Good(n) else Fix(n, n.kids[cf], delta)
  }

  /** What the tree's own fixups list for a property of the node at q. */
  function References(n: Node, q: Path, name: Bytes): (os: seq<nat>)
    requires Has(n, q)
    ensures forall i :: 0 <= i < |os| ==> os[i] < WORD
  {
    var cf := FindKid(n.kids, FIXUPS);
    if cf < |n.kids| then Listed(n, n.kids[cf], q, name) else []
  }

  /** Every property of the tree that is left: raised if it is a phandle, and then
      moved wherever the fixups, as they are by then, list it. */
  lemma LocalizedReads(o: Node, delta: nat, q: Path, name: Bytes)
    requires Localized(o, delta).Good? && Has(o, q)
    ensures Adjust(o, delta).Good? && CanRaise(Lookup(At(o, q), name), name, delta)
    ensures var m, n := Localized(o, delta).n, Adjust(o, delta).n;
      && Has(m, q) && Has(n, q)
      && Lookup(At(m, q), name) == MovedIn(RaisedIn(Lookup(At(o, q), name), name, delta), References(n, q, name), delta)
      && (Lookup(At(m, q), name).Found? <==> Lookup(At(o, q), name).Found?)
  {
    hide Lookup, Listed, Fix, Adjust, CanRaise, MovedIn;
    var n := Adjust(o, delta).n;
    AdjustReads(o, delta, q, name);
    var cf := FindKid(n.kids, FIXUPS);
    if cf < |n.kids| {
      FixReads(n, n.kids[cf], delta, q, name);
    } else {
      MovedInNone(Lookup(At(n, q), name), delta);
    }
  }

  /** The property that gives a node its phandle. */
  function PhandleName(n: Node): Bytes { if WordOf(n, PHANDLE) >= 0 then PHANDLE else LINUX_PHANDLE }

  lemma PhandleIs(n: Node)
    requires HasPhandle(n)
    ensures var r := Lookup(n, PhandleName(n)); IsPhandle(PhandleName(n)) && r.Found? && |r.s| == 4 && Phandle(n) == Get32(r.s)
  {
    hide Lookup, PHANDLE, LINUX_PHANDLE;
  }

  lemma SamePhandleName(n: Node, m: Node)
    requires WordOf(n, PHANDLE) >= 0 <==> WordOf(m, PHANDLE) >= 0
    requires WordOf(n, LINUX_PHANDLE) >= 0 <==> WordOf(m, LINUX_PHANDLE) >= 0
    ensures PhandleName(m) == PhandleName(n) && (HasPhandle(m) <==> HasPhandle(n)) && (!HasPhandle(m) ==> Phandle(m) == 0)
  {
  }

  lemma IsWord(n: Node, name: Bytes)
    ensures WordOf(n, name) >= 0 <==> Lookup(n, name).Found? && |Lookup(n, name).s| == 4
  {
  }

  lemma LocalizedWord(o: Node, delta: nat, q: Path, name: Bytes)
    requires Localized(o, delta).Good? && Has(o, q) && Has(Localized(o, delta).n, q)
    ensures WordOf(At(o, q), name) >= 0 <==> WordOf(At(Localized(o, delta).n, q), name) >= 0
  {
    hide Lookup, Localized, IsPhandle, CanRaise, References, WordOf, Moved;
    LocalizedReads(o, delta, q, name);
    IsWord(At(o, q), name);
    IsWord(At(Localized(o, delta).n, q), name);
  }

  /** In a property of one word, words that are listed without failing are that
      word, or go astray. */
  lemma {:induction false} OneWordApart(v: Bytes, os: seq<nat>, delta: nat)
    requires |v| == 4 && Moved(v, os, delta).Found? && forall i :: 0 <= i < |os| ==> os[i] < WORD
    ensures Separate(os, 0)
  {
    hide Patched, Get32, Word;
    if os != [] {
      OneWordApart(v, os[..|os| - 1], delta);
      forall i | 0 <= i < |os| ensures os[i] == 0 || 4 <= os[i] {
        if i < |os| - 1 { assert os[..|os| - 1][i] == os[i]; }
      }
    }
  }

  /** A node's phandle ends greater by delta, and by delta again for every time
      that the fixups list it. */
  lemma PhandleMoved(o: Node, delta: nat, q: Path)
    requires Localized(o, delta).Good? && Has(o, q)
    ensures Adjust(o, delta).Good? && Has(Adjust(o, delta).n, q) && Has(Localized(o, delta).n, q)
    ensures var n, m, name := Adjust(o, delta).n, Localized(o, delta).n, PhandleName(At(o, q));
      && (HasPhandle(At(m, q)) <==> HasPhandle(At(o, q))) && (!HasPhandle(At(m, q)) ==> Phandle(At(m, q)) == 0)
      && (HasPhandle(At(o, q)) ==>
           Phandle(At(o, q)) + delta < WORD
           && Phandle(At(m, q)) == (Phandle(At(o, q)) + delta + Times(References(n, q, name), 0) * delta) % WORD)
  {
    hide *;
    var name := PhandleName(At(o, q));
    LocalizedReads(o, delta, q, name);
    LocalizedWord(o, delta, q, PHANDLE);
    LocalizedWord(o, delta, q, LINUX_PHANDLE);
    var n, m := Adjust(o, delta).n, Localized(o, delta).n;
    SamePhandleName(At(o, q), At(m, q));
    if HasPhandle(At(o, q)) {
      PhandleIs(At(o, q));
      PhandleIs(At(m, q));
      RaisedWord(Lookup(At(o, q), name), name, delta);
      var v, os := RaisedIn(Lookup(At(o, q), name), name, delta).s, References(n, q, name);
      MovedInIs(RaisedIn(Lookup(At(o, q), name), name, delta), os, delta);
      OneWordApart(v, os, delta);
      MovedWords(v, os, delta, 0);
      assert Moved(v, os, delta).s[0..0 + 4] == Moved(v, os, delta).s && v[0..0 + 4] == v;
    }
  }

  lemma MovedInIs(r: StringResult, os: seq<nat>, delta: nat)
    ensures r.Found? ==> MovedIn(r, os, delta) == Moved(r.s, os, delta)
  {
  }

  lemma RaisedWord(r: StringResult, name: Bytes, delta: nat)
    requires IsPhandle(name) && r.Found? && CanRaise(r, name, delta)
    ensures |r.s| == 4 && Get32(r.s) + delta < WORD
    ensures var u := RaisedIn(r, name, delta); u.Found? && |u.s| == 4 && Get32(u.s) == Get32(r.s) + delta
  {
    hide PHANDLE, LINUX_PHANDLE;
    WordBack(Get32(r.s) + delta);
  }

  lemma SameSums(p: int, x: int, y: int)
    ensures (p + x) % WORD == (p + y) % WORD <==> (x - y) % WORD == 0
  {
  }

  lemma Differ(a: int, b: int, delta: nat)
    ensures a * delta - b * delta == (a - b) * delta
  {
  }

  /** A word that held the phandle of the node at q still does exactly if it has
      been raised as often as that phandle, or by multiples of 2^32. */
  lemma ReferenceExact(o: Node, delta: nat, t: Path, name: Bytes, a: nat, q: Path)
    requires Localized(o, delta).Good? && Has(o, t) && Has(o, q) && HasPhandle(At(o, q))
    requires var r := Lookup(At(o, t), name); r.Found? && a + 4 <= |r.s| && Get32(r.s[a..a + 4]) == Phandle(At(o, q))
    requires var n := Adjust(o, delta).n;
      Adjust(o, delta).Good? && Has(n, t) && (IsPhandle(name) || Separate(References(n, t, name), a))
    ensures var n, m := Adjust(o, delta).n, Localized(o, delta).n;
      && Has(n, q) && Has(m, t) && Has(m, q)
      && var u := Lookup(At(m, t), name);
         u.Found? && a + 4 <= |u.s|
         && var word := (if IsPhandle(name) then 1 else 0) + Times(References(n, t, name), a);
            var node := 1 + Times(References(n, q, PhandleName(At(o, q))), 0);
            Get32(u.s[a..a + 4]) == Phandle(At(m, q)) <==> (word - node) * delta % WORD == 0
  {
    hide *;
    LocalizedReads(o, delta, t, name);
    PhandleMoved(o, delta, q);
    var n, m := Adjust(o, delta).n, Localized(o, delta).n;
    var r, os := Lookup(At(o, t), name), References(n, t, name);
    var v := RaisedIn(r, name, delta);
    RaisedAt(r, name, delta, a);
    MovedInIs(v, os, delta);
    if IsPhandle(name) { OneWordApart(v.s, os, delta); }
    MovedWords(v.s, os, delta, a);
    Meet(Phandle(At(o, q)), IsPhandle(name), Times(os, a), Times(References(n, q, PhandleName(At(o, q))), 0), delta);
  }

  lemma Meet(p: nat, raised: bool, word: nat, node: nat, delta: nat)
    ensures var r := if raised then 1 else 0;
      var held, meant := p + (if raised then delta else 0) + word * delta, p + delta + node * delta;
      held % WORD == meant % WORD <==> (r + word - (1 + node)) * delta % WORD == 0
  {
    hide *;
    var r := if raised then 1 else 0;
    SameSums(p, (r + word) * delta, (1 + node) * delta);
    Differ(r + word, 1 + node, delta);
    Sum(r, word, delta);
    Sum(1, node, delta);
  }

  lemma Sum(a: int, b: int, delta: int)
    ensures (a + b) * delta == a * delta + b * delta && 0 * delta == 0 && 1 * delta == delta
  {
  }

  lemma RaisedAt(r: StringResult, name: Bytes, delta: nat, a: nat)
    requires r.Found? && CanRaise(r, name, delta) && a + 4 <= |r.s|
    ensures var v := RaisedIn(r, name, delta);
      && v.Found? && |v.s| == |r.s| && (IsPhandle(name) ==> a == 0 && |v.s| == 4)
      && Get32(v.s[a..a + 4]) == Get32(r.s[a..a + 4]) + if IsPhandle(name) then delta else 0
  {
    hide PHANDLE, LINUX_PHANDLE;
    if IsPhandle(name) {
      WordBack(Get32(r.s) + delta);
      assert r.s[0..0 + 4] == r.s;
      var w := Word(Get32(r.s) + delta);
      assert w[0..0 + 4] == w;
    }
  }

  // ----- phandles are not listed -----

  /** No node of the fixups has two properties of one name. */
  ghost predicate DistinctBelow(f: Node)
    decreases f
  {
    DistinctProps(f.props) && forall i :: 0 <= i < |f.kids| ==> DistinctBelow(f.kids[i])
  }

  ghost predicate DistinctProps(fs: seq<NodeProp>) {
    forall i, j :: 0 <= i < j < |fs| ==> fs[i].name != fs[j].name
  }

  ghost predicate DistinctFixups(o: Node) {
    var cf := FindKid(o.kids, FIXUPS);
    cf < |o.kids| ==> DistinctBelow(o.kids[cf])
  }

  lemma {:induction false} PropListsOnce(fs: seq<NodeProp>, name: Bytes)
    requires DistinctProps(fs)
    ensures var k := FindProp(fs, name); PropLists(fs, name) == if k < |fs| then Offsets(fs[k].value) else []
  {
    hide Offsets;
    if fs != [] {
      var last := |fs| - 1;
      PropListsOnce(fs[..last], name);
      var j := FindProp(fs[..last], name);
      if j < last {
        FindPropIs(fs, name, j);
      } else if fs[last].name == name {
        FindPropIs(fs, name, last);
      } else {
        NoProp(fs, name);
      }
    }
  }

  lemma OneOffset(v: nat, delta: nat)
    requires 0 < delta && v + delta < WORD
    ensures 0 !in Offsets(Word(v + delta))
  {
    WordBack(v + delta);
    var w := Word(v + delta);
    assert w[4 * 0..4 * 0 + 4] == w;
  }

  /** The fixups are raised too: where they would list a phandle, the offset is no
      longer 0. */
  lemma RaisedList(f: Node, delta: nat, name: Bytes)
    requires RaiseBoth(f, delta).Good? && DistinctProps(f.props) && IsPhandle(name) && delta > 0
    ensures 0 !in PropLists(RaiseBoth(f, delta).n.props, name)
  {
    hide PHANDLE, LINUX_PHANDLE, Offsets, RaiseBoth;
    var g := RaiseBoth(f, delta).n;
    BothLookup(f, delta, name);
    PropListsOnce(g.props, name);
    SameFind(f.props, g.props, name);
    var r := Lookup(f, name);
    if r.Found? { OneOffset(Get32(r.s), delta); }
  }

  lemma {:induction false} PhandlesUnlisted(n: Node, f: Node, delta: nat, q: Path, name: Bytes)
    requires Adjust(f, delta).Good? && DistinctBelow(f) && Has(n, q) && IsPhandle(name) && delta > 0
    ensures 0 !in Listed(n, Adjust(f, delta).n, q, name)
    decreases |q|
  {
    hide IsPhandle, RaiseBoth;
    var g, m := Adjust(f, delta).n, RaiseBoth(f, delta).n;
    RaisedList(f, delta, name);
    BothLookup(f, delta, name);
    AdjustKidsRest(m, f.kids, delta);
    if q != [] {
      forall i | 0 <= i < |g.kids| ensures 0 !in Listed(n.kids[q[0]], g.kids[i], q[1..], name) {
        AdjustKidAt(m, f.kids, delta, i);
        PhandlesUnlisted(n.kids[q[0]], f.kids[i], delta, q[1..], name);
      }
      NoneListed(n, g.kids, q, name);
    }
  }

  lemma {:induction false} NoneListed(n: Node, ks: seq<Node>, q: Path, name: Bytes)
    requires q != [] && Has(n, q) && forall i :: 0 <= i < |ks| ==> 0 !in Listed(n.kids[q[0]], ks[i], q[1..], name)
    ensures 0 !in KidLists(n, ks, q, name)
    decreases |ks|
  {
    hide Listed;
    if ks != [] { NoneListed(n, ks[..|ks| - 1], q, name); }
  }

  lemma {:induction false} TimesNone(os: seq<nat>, a: nat)
    requires a !in os
    ensures Times(os, a) == 0
  {
    if os != [] { TimesNone(os[..|os| - 1], a); }
  }

  lemma FixupsAdjusted(o: Node, delta: nat)
    requires Adjust(o, delta).Good?
    ensures var n, cf := Adjust(o, delta).n, FindKid(o.kids, FIXUPS);
      && SameBut(o, n) && Alike(o, n) && |n.kids| == |o.kids| && FindKid(n.kids, FIXUPS) == cf
      && (cf < |o.kids| ==> Adjust(o.kids[cf], delta).Good? && n.kids[cf] == Adjust(o.kids[cf], delta).n && SameBut(o.kids[cf], n.kids[cf]))
  {
    hide RaiseBoth, FIXUPS;
    var n := Adjust(o, delta).n;
    AdjustSame(o, delta);
    SameButAlike(o, n);
    AlikeKids(o, n);
    SameKid(o.kids, n.kids, FIXUPS);
    BothLookup(o, delta, []);
    var cf := FindKid(o.kids, FIXUPS);
    if cf < |o.kids| { AdjustKidAt(RaiseBoth(o, delta).n, o.kids, delta, cf); }
  }

  lemma NoPhandleListed(o: Node, delta: nat, q: Path, name: Bytes)
    requires Adjust(o, delta).Good? && Has(o, q) && DistinctFixups(o) && IsPhandle(name) && delta > 0
    ensures Has(Adjust(o, delta).n, q) && Times(References(Adjust(o, delta).n, q, name), 0) == 0
  {
    hide *;
    FixupsAdjusted(o, delta);
    var n, cf := Adjust(o, delta).n, FindKid(o.kids, FIXUPS);
    BeforeAlike(o, n, q);
    DistinctIs(o);
    ReferencesIs(n, q, name);
    if cf < |o.kids| { PhandlesUnlisted(n, o.kids[cf], delta, q, name); }
    TimesNone(References(n, q, name), 0);
  }

  lemma DistinctIs(o: Node)
    requires DistinctFixups(o)
    ensures FindKid(o.kids, FIXUPS) < |o.kids| ==> DistinctBelow(o.kids[FindKid(o.kids, FIXUPS)])
  {
  }

  lemma ReferencesIs(n: Node, q: Path, name: Bytes)
    requires Has(n, q)
    ensures var cf := FindKid(n.kids, FIXUPS); cf <= |n.kids| && References(n, q, name) == if cf < |n.kids| then Listed(n, n.kids[cf], q, name) else []
  {
  }

  lemma ReferencesSame(o: Node, delta: nat, t: Path, name: Bytes)
    requires Adjust(o, delta).Good? && Has(o, t) && !IsPhandle(name)
    ensures Has(Adjust(o, delta).n, t) && References(Adjust(o, delta).n, t, name) == References(o, t, name)
  {
    hide *;
    FixupsAdjusted(o, delta);
    var n, cf := Adjust(o, delta).n, FindKid(o.kids, FIXUPS);
    BeforeAlike(o, n, t);
    ReferencesIs(n, t, name);
    ReferencesIs(o, t, name);
    if cf < |o.kids| {
      ListedSame(o, o.kids[cf], n.kids[cf], t, name);
      ListedAlike(o, n, n.kids[cf], t, name);
    }
  }

  // ----- what holds in the end -----

  /** When no node of the fixups has two properties of one name, a word that held
      the phandle of a node of the overlay does so in the end exactly if it is
      listed once, or is itself a phandle, or all is moved by multiples of 2^32. */
  lemma ReferenceFollows(o: Node, delta: nat, t: Path, name: Bytes, a: nat, q: Path)
    requires Localized(o, delta).Good? && Has(o, t) && Has(o, q) && HasPhandle(At(o, q)) && DistinctFixups(o)
    requires var r := Lookup(At(o, t), name); r.Found? && a + 4 <= |r.s| && Get32(r.s[a..a + 4]) == Phandle(At(o, q))
    requires IsPhandle(name) || Separate(References(o, t, name), a)
    ensures var m := Localized(o, delta).n;
      && Has(m, t) && Has(m, q)
      && var u := Lookup(At(m, t), name);
         u.Found? && a + 4 <= |u.s|
         && (Get32(u.s[a..a + 4]) == Phandle(At(m, q)) <==>
               IsPhandle(name) || (Times(References(o, t, name), a) - 1) * delta % WORD == 0)
  {
    hide *;
    LocalizedReads(o, delta, t, name);
    LocalizedReads(o, delta, q, PhandleName(At(o, q)));
    PhandleIs(At(o, q));
    if !IsPhandle(name) { ReferencesSame(o, delta, t, name); }
    ReferenceExact(o, delta, t, name, a, q);
    var n := Adjust(o, delta).n;
    var word: int, node: int := Times(References(n, t, name), a), Times(References(n, q, PhandleName(At(o, q))), 0);
    if delta > 0 {
      NoPhandleListed(o, delta, q, PhandleName(At(o, q)));
      if IsPhandle(name) {
        RaisedAt(Lookup(At(o, t), name), name, delta, a);
        NoPhandleListed(o, delta, t, name);
      }
    }
    var raised: int := if IsPhandle(name) then 1 else 0;
    Zero(raised + word - (1 + node), delta);
    Zero(word - 1, delta);
  }

  lemma Zero(x: int, delta: nat)
    ensures x == 0 || delta == 0 ==> x * delta == 0 && x * delta % WORD == 0
  {
  }

  /** Phandles are raised by delta and no more, so with the greatest phandle of the
      base tree for delta they all end above it. */
  lemma PhandlesAbove(base: Node, o: Node, delta: nat, p: Path, q: Path)
    requires (forall p :: Has(base, p) ==> Phandle(At(base, p)) <= delta) && Localized(o, delta).Good? && DistinctFixups(o)
    requires Has(base, p) && Has(o, q)
    ensures var m := Localized(o, delta).n;
      && Has(m, q) && Phandle(At(m, q)) == (if HasPhandle(At(o, q)) then Phandle(At(o, q)) + delta else 0)
      && (Phandle(At(o, q)) != 0 ==> Phandle(At(m, q)) > Phandle(At(base, p)))
  {
    hide *;
    PhandleMoved(o, delta, q);
    if HasPhandle(At(o, q)) {
      PhandleIs(At(o, q));
      var node := Times(References(Adjust(o, delta).n, q, PhandleName(At(o, q))), 0);
      if delta > 0 { NoPhandleListed(o, delta, q, PhandleName(At(o, q))); }
      Zero(node, delta);
      NoWrap(Phandle(At(o, q)), delta);
    } else {
      NoPhandle(At(o, q));
    }
  }

  lemma NoWrap(v: nat, delta: nat)
    ensures v + delta < WORD ==> (v + delta) % WORD == v + delta
  {
  }

  lemma NoPhandle(n: Node)
    requires !HasPhandle(n)
    ensures Phandle(n) == 0
  {
  }

  /** A property that is no phandle and that nothing is listed for is as it was. */
  lemma OthersKept(o: Node, delta: nat, q: Path, name: Bytes)
    requires Localized(o, delta).Good? && Has(o, q) && !IsPhandle(name) && References(o, q, name) == []
    ensures Has(Localized(o, delta).n, q) && Lookup(At(Localized(o, delta).n, q), name) == Lookup(At(o, q), name)
  {
    hide *;
    LocalizedReads(o, delta, q, name);
    ReferencesSame(o, delta, q, name);
    MovedInNone(Lookup(At(o, q), name), delta);
    NotRaised(Lookup(At(o, q), name), name, delta);
  }

  lemma NotRaised(r: StringResult, name: Bytes, delta: nat)
    ensures !IsPhandle(name) ==> RaisedIn(r, name, delta) == r
  {
  }

  // ----- as the fixups say it -----

  /** Different children of the fixups stand for different children of n, and so
      on below. */
  ghost predicate KidsOnce(n: Node, f: Node)
    decreases f
  {
    && (forall i, j :: 0 <= i < j < |f.kids| ==> FindKid(n.kids, f.kids[i].name) != FindKid(n.kids, f.kids[j].name))
    && forall i :: 0 <= i < |f.kids| ==>
         FindKid(n.kids, f.kids[i].name) < |n.kids| ==> KidsOnce(n.kids[FindKid(n.kids, f.kids[i].name)], f.kids[i])
  }

  /** No property of n or below is listed twice. */
  ghost predicate ListedOnce(n: Node, f: Node) { KidsOnce(n, f) && DistinctBelow(f) }

  /** No two of the words overlap. */
  predicate Spread(os: seq<nat>) {
    forall i, j :: 0 <= i < j < |os| ==> os[i] + 4 <= os[j] || os[j] + 4 <= os[i]
  }

  lemma {:induction false} SpreadOnce(os: seq<nat>, i: nat)
    requires Spread(os) && i < |os|
    ensures Separate(os, os[i]) && Times(os, os[i]) == 1
  {
    var last := |os| - 1;
    if i < last {
      SpreadOnce(os[..last], i);
    } else {
      TimesNone(os[..last], os[last]);
    }
  }

  /** The path in the tree n that the path h in the fixups f stands for. */
  function Trail(n: Node, f: Node, h: Path): Path
    requires Has(f, h)
    decreases h
  {
    if h == [] then []
    else
      var c := FindKid(n.kids, f.kids[h[0]].name);
      [c] + if c < |n.kids| then Trail(n.kids[c], f.kids[h[0]], h[1..]) else []
  }

  lemma {:induction false} TrailSame(n: Node, m: Node, f: Node, g: Node, h: Path)
    requires Alike(n, m) && Alike(f, g) && Has(f, h)
    ensures Has(g, h) && Trail(n, f, h) == Trail(m, g, h)
    decreases h
  {
    if h != [] {
      AlikeKids(n, m);
      SameKid(n.kids, m.kids, f.kids[h[0]].name);
      var c := FindKid(n.kids, f.kids[h[0]].name);
      if c < |n.kids| {
        TrailSame(n.kids[c], m.kids[c], f.kids[h[0]], g.kids[h[0]], h[1..]);
      } else {
        BeforeAlike(f.kids[h[0]], g.kids[h[0]], h[1..]);
      }
    }
  }

  lemma {:induction false} AlikeBack(n: Node, m: Node, q: Path)
    requires Alike(n, m) && Has(m, q)
    ensures Has(n, q)
    decreases q
  {
    if q != [] { AlikeBack(n.kids[q[0]], m.kids[q[0]], q[1..]); }
  }

  lemma KidsAlike(n: Node, m: Node, c: nat)
    requires Alike(n, m) && c < |m.kids|
    ensures c < |n.kids| && Alike(n.kids[c], m.kids[c])
  {
  }

  /** Each child of the fixups has been followed. */
  lemma {:induction false} FixKidsFound(n: Node, ks: seq<Node>, delta: nat, i: nat) returns (x: Node)
    requires FixKids(n, ks, delta).Good? && i < |ks|
    ensures var c := FindKid(n.kids, ks[i].name); c < |n.kids| && Alike(n.kids[c], x) && Fix(x, ks[i], delta).Good?
  {
    hide Alike, SameNames;
    var last := |ks| - 1;
    var u := FixKids(n, ks[..last], delta).n;
    if i < last {
      x := FixKidsFound(n, ks[..last], delta, i);
    } else {
      FixKidsAlike(n, ks[..last], delta);
      AlikeKids(n, u);
      SameKid(n.kids, u.kids, ks[last].name);
      x := u.kids[FindKid(u.kids, ks[last].name)];
      KidsAlike(n, u, FindKid(u.kids, ks[last].name));
    }
  }

  lemma {:induction false} TrailHas(n: Node, f: Node, delta: nat, h: Path)
    requires Fix(n, f, delta).Good? && Has(f, h)
    ensures Has(n, Trail(n, f, h))
    decreases h
  {
    hide Alike;
    if h != [] {
      var m, k := FixProps(n, f.props, delta).n, f.kids[h[0]];
      FixPropsReads(n, f.props, delta, []);
      var x := FixKidsFound(m, f.kids, delta, h[0]);
      TrailHas(x, k, delta, h[1..]);
      var c := FindKid(n.kids, k.name);
      AlikeSelf(k);
      TrailSame(n.kids[c], x, k, k, h[1..]);
      AlikeBack(n.kids[c], x, Trail(x, k, h[1..]));
      TrailDown(n, c, Trail(x, k, h[1..]));
    }
  }

  lemma TrailDown(n: Node, c: nat, t: Path)
    requires c < |n.kids| && Has(n.kids[c], t)
    ensures Has(n, [c] + t) && ([c] + t)[1..] == t && At(n, [c] + t) == At(n.kids[c], t)
  {
    assert ([c] + t)[1..] == t;
  }

  /** What is listed for a property, when none is listed twice, is what the one
      property of the fixups says. */
  lemma {:induction false} TrailListed(n: Node, f: Node, h: Path, k: nat)
    requires ListedOnce(n, f) && Has(f, h) && k < |At(f, h).props| && Has(n, Trail(n, f, h))
    ensures Listed(n, f, Trail(n, f, h), At(f, h).props[k].name) == Offsets(At(f, h).props[k].value)
    decreases h
  {
    hide Offsets;
    if h == [] {
      PropListsOnce(f.props, f.props[k].name);
      FindPropIs(f.props, f.props[k].name, k);
    } else {
      var i, t := h[0], Trail(n, f, h);
      var c := FindKid(n.kids, f.kids[i].name);
      TrailListed(n.kids[c], f.kids[i], h[1..], k);
      assert t[1..] == Trail(n.kids[c], f.kids[i], h[1..]);
      KidListsOnce(n, f.kids, t, At(f, h).props[k].name, i);
    }
  }

  lemma {:induction false} KidListsOnce(n: Node, ks: seq<Node>, q: Path, name: Bytes, i: nat)
    requires q != [] && Has(n, q) && i < |ks| && FindKid(n.kids, ks[i].name) == q[0]
    requires forall j :: 0 <= j < |ks| && j != i ==> FindKid(n.kids, ks[j].name) != q[0]
    ensures KidLists(n, ks, q, name) == Listed(n.kids[q[0]], ks[i], q[1..], name)
    decreases |ks|
  {
    hide Listed;
    var last := |ks| - 1;
    if i < last { KidListsOnce(n, ks[..last], q, name, i); } else { KidListsNone(n, ks[..last], q, name); }
  }

  lemma {:induction false} KidListsNone(n: Node, ks: seq<Node>, q: Path, name: Bytes)
    requires q != [] && Has(n, q) && forall j :: 0 <= j < |ks| ==> FindKid(n.kids, ks[j].name) != q[0]
    ensures KidLists(n, ks, q, name) == []
    decreases |ks|
  {
    hide Listed;
    if ks != [] { KidListsNone(n, ks[..|ks| - 1], q, name); }
  }

  /** The i-th reference that the k-th property at h in the fixups lists named the
      node at q, and names it in the tree that is left, if no property and no word
      is listed twice. */
  lemma FixupFollows(o: Node, delta: nat, h: Path, k: nat, i: nat, q: Path)
    requires Localized(o, delta).Good? && Has(o, q) && HasPhandle(At(o, q))
    requires var cf := FindKid(o.kids, FIXUPS);
      cf < |o.kids| && ListedOnce(o, o.kids[cf])
      && Has(o.kids[cf], h) && k < |At(o.kids[cf], h).props|
      && var os := Offsets(At(o.kids[cf], h).props[k].value); i < |os| && Spread(os)
    ensures var f, m := o.kids[FindKid(o.kids, FIXUPS)], Localized(o, delta).n;
      var t, p := Trail(o, f, h), At(f, h).props[k];
      && Has(o, t) && Has(m, t) && Has(m, q)
      && var a, v, u := Offsets(p.value)[i], Lookup(At(o, t), p.name), Lookup(At(m, t), p.name);
         v.Found? && a + 4 <= |v.s| && Get32(v.s[a..a + 4]) == Phandle(At(o, q)) ==>
           u.Found? && a + 4 <= |u.s| && Get32(u.s[a..a + 4]) == Phandle(At(m, q))
  {
    hide *;
    LocalizedReads(o, delta, q, PHANDLE);
    FixupPlace(o, delta, h, k);
    var f := o.kids[FindKid(o.kids, FIXUPS)];
    var t, p := Trail(o, f, h), At(f, h).props[k];
    LocalizedReads(o, delta, t, p.name);
    SpreadOnce(Offsets(p.value), i);
    var a, v := Offsets(p.value)[i], Lookup(At(o, t), p.name);
    if v.Found? && a + 4 <= |v.s| && Get32(v.s[a..a + 4]) == Phandle(At(o, q)) {
      ReferenceFollows(o, delta, t, p.name, a, q);
      Zero(Times(References(o, t, p.name), a) - 1, delta);
    }
  }

  lemma FixupPlace(o: Node, delta: nat, h: Path, k: nat)
    requires Localized(o, delta).Good?
    requires var cf := FindKid(o.kids, FIXUPS);
      cf < |o.kids| && ListedOnce(o, o.kids[cf]) && Has(o.kids[cf], h) && k < |At(o.kids[cf], h).props|
    ensures var f := o.kids[FindKid(o.kids, FIXUPS)];
      var t, p := Trail(o, f, h), At(f, h).props[k];
      Has(o, t) && References(o, t, p.name) == Offsets(p.value) && DistinctFixups(o)
  {
    hide *;
    RootPath(o, o);
    LocalizedReads(o, delta, [], PHANDLE);
    var n, cf := Adjust(o, delta).n, FindKid(o.kids, FIXUPS);
    LocalizedIs(o, delta);
    FixupsAdjusted(o, delta);
    var f, g := o.kids[cf], n.kids[cf];
    SameButAlike(f, g);
    TrailSame(o, n, f, g, h);
    TrailHas(n, g, delta, h);
    AlikeBack(o, n, Trail(o, f, h));
    TrailListed(o, f, h, k);
    ReferencesIs(o, Trail(o, f, h), At(f, h).props[k].name);
    OnceDistinct(o, f);
    DistinctFrom(o);
  }

  lemma LocalizedIs(o: Node, delta: nat)
    requires Adjust(o, delta).Good?
    ensures var n := Adjust(o, delta).n; var cf := FindKid(n.kids, FIXUPS);
      Localized(o, delta) == if cf == |n.kids| then Good(n) else Fix(n, n.kids[cf], delta)
  {
  }

  lemma OnceDistinct(n: Node, f: Node)
    requires ListedOnce(n, f)
    ensures DistinctBelow(f)
  {
  }

  lemma DistinctFrom(o: Node)
    requires FindKid(o.kids, FIXUPS) < |o.kids| ==> DistinctBelow(o.kids[FindKid(o.kids, FIXUPS)])
    ensures DistinctFixups(o)
  {
  }

  // ----- a phandle that is raised twice -----

  const R: Bytes := [114]

  /** Fixups that list "phandle" twice, and "r" once. */
  function Twice(x: nat): Node
    requires x < WORD
  {
    Node(FIXUPS, [P(PHANDLE, Word(x)), P(PHANDLE, Word(0)), P(R, Word(0))], [])
  }

  function Referring(phandle: nat, reference: nat, fixups: Node): Node
    requires phandle < WORD && reference < WORD
  {
    Node([], [P(PHANDLE, Word(phandle)), P(R, Word(reference))], [fixups])
  }

  lemma TwiceIs(x: nat)
    requires x < WORD
    ensures Twice(x) == Node(FIXUPS, [P(PHANDLE, Word(x)), P(PHANDLE, Word(0)), P(R, Word(0))], [])
  {
  }

  lemma ReferringIs(phandle: nat, reference: nat, f: Node)
    requires phandle < WORD && reference < WORD
    ensures Referring(phandle, reference, f) == Node([], [P(PHANDLE, Word(phandle)), P(R, Word(reference))], [f])
  {
  }

  lemma RaiseFirst(n: Node, v: nat, delta: nat)
    requires v + delta < WORD - 1 && n.props != [] && n.props[0] == P(PHANDLE, Word(v))
    requires forall i :: 0 < i < |n.props| ==> n.props[i].name != LINUX_PHANDLE
    ensures RaiseBoth(n, delta) == Good(n.(props := n.props[0 := P(PHANDLE, Word(v + delta))]))
  {
    NamesDiffer();
    WordBack(v);
    FindPropIs(n.props, PHANDLE, 0);
    var m := n.(props := n.props[0 := P(PHANDLE, Word(v + delta))]);
    assert Patched(n.props[0].value, 0, Word(v + delta)) == Word(v + delta);
    NoProp(m.props, LINUX_PHANDLE);
  }

  lemma FixWord(n: Node, k: nat, v: nat, x: nat, delta: nat)
    requires k < |n.props| && v < WORD && x < WORD && n.props[k].value == Word(v)
    requires forall i :: 0 <= i < k ==> n.props[i].name != n.props[k].name
    ensures var name := n.props[k].name;
      && (x == 0 ==> FixProp(n, P(name, Word(x)), delta) == Good(n.(props := n.props[k := P(name, Word((v + delta) % WORD))])))
      && (WORD - 4 <= x ==> FixProp(n, P(name, Word(x)), delta) == Good(n))
  {
    var name, w := n.props[k].name, Word((v + delta) % WORD);
    FindPropIs(n.props, name, k);
    WordBack(v);
    WordBack(x);
    assert Word(v)[0..0 + 4] == Word(v) && Word(x)[4 * 0..4 * 0 + 4] == Word(x);
    assert Patched(Word(v), 0, w) == w;
    assert Offsets(Word(x)) == [x];
    MoveRefsNone(n, name, [x], delta);
    MoveRefsStep(n, name, [x], 0, delta);
    assert [x][..1] == [x];
  }

  lemma OtherNames()
    ensures R != PHANDLE && R != LINUX_PHANDLE && WORD == 0x1_0000_0000 && ERR_BADOVERLAY == 16
    ensures NameEq(FIXUPS, FIXUPS)
  {
    assert |PHANDLE| == 7 && |LINUX_PHANDLE| == 13;
  }

  lemma TwiceAdjusted()
    ensures Adjust(Referring(1, 1, Twice(0xffff_fffb)), 1) == Good(Referring(2, 1, Twice(0xffff_fffc)))
  {
    hide *;
    OtherNames();
    NamesDiffer();
    var f := Twice(0xffff_fffb);
    var o := Referring(1, 1, f);
    TwiceIs(0xffff_fffb);
    TwiceIs(0xffff_fffc);
    ReferringIs(1, 1, f);
    ReferringIs(2, 1, f);
    ReferringIs(2, 1, Twice(0xffff_fffc));
    RaiseFirst(f, 0xffff_fffb, 1);
    RaiseFirst(o, 1, 1);
    AdjustIs(f, 1);
    AdjustIs(o, 1);
    var g, m := RaiseBoth(f, 1).n, RaiseBoth(o, 1).n;
    assert g == Twice(0xffff_fffc) && m == Referring(2, 1, f);
    assert AdjustKids(g, f.kids[..0], 1) == Good(g) && AdjustKids(m, o.kids[..0], 1) == Good(m);
    AdjustStep(m, o.kids, 0, 1);
    assert m.kids[0 := g] == [g];
  }

  lemma TwiceFixed()
    ensures var f := Twice(0xffff_fffc); Fix(Referring(2, 1, f), f, 1) == Good(Referring(3, 2, f))
  {
    hide *;
    OtherNames();
    var f := Twice(0xffff_fffc);
    TwiceIs(0xffff_fffc);
    ReferringIs(2, 1, f);
    ReferringIs(3, 1, f);
    ReferringIs(3, 2, f);
    var n, u, m := Referring(2, 1, f), Referring(3, 1, f), Referring(3, 2, f);
    FixPropsStep(n, f.props, 0, 1);
    FixPropsStep(n, f.props, 1, 1);
    FixPropsStep(n, f.props, 2, 1);
    FixWord(n, 0, 2, 0xffff_fffc, 1);
    FixWord(n, 0, 2, 0, 1);
    FixWord(u, 1, 1, 0, 1);
    assert n.props[0 := P(PHANDLE, Word(3))] == u.props && u.props[1 := P(R, Word(2))] == m.props;
    FixIs(n, f, 1);
    FixKidsStep(m, f.kids, 0, 1);
  }

  lemma ReferringReads(phandle: nat, reference: nat, f: Node)
    requires phandle < WORD && reference < WORD
    ensures var o := Referring(phandle, reference, f); Phandle(o) == phandle && Lookup(o, R) == Found(Word(reference))
  {
    OtherNames();
    var ps := Referring(phandle, reference, f).props;
    FindPropIs(ps, PHANDLE, 0);
    FindPropIs(ps, R, 1);
    WordBack(phandle);
  }

  /** A reference listed once, which does not follow: the fixups have two
      properties named "phandle".  The offset of the first is raised too and goes
      astray, the second moves the phandle again. */
  lemma RaisedTwice()
    ensures var o := Referring(1, 1, Twice(0xffff_fffb));
      && Lookup(o, R) == Found(Word(1)) && Phandle(o) == 1 && References(o, [], R) == [0] && !DistinctFixups(o)
      && Localized(o, 1).Good?
      && var m := Localized(o, 1).n; Lookup(m, R) == Found(Word(2)) && Phandle(m) == 3
  {
    hide *;
    OtherNames();
    TwiceAdjusted();
    TwiceFixed();
    var f, g := Twice(0xffff_fffb), Twice(0xffff_fffc);
    var o, n := Referring(1, 1, f), Referring(2, 1, g);
    TwiceIs(0xffff_fffb);
    TwiceIs(0xffff_fffc);
    ReferringIs(1, 1, f);
    ReferringIs(2, 1, g);
    ReferringReads(1, 1, f);
    ReferringReads(3, 2, g);
    FindKidIs(o.kids, FIXUPS, 0);
    FindKidIs(n.kids, FIXUPS, 0);
    LocalizedIs(o, 1);
    TwiceNames(0xffff_fffb);
    RootPath(o, o);
    ReferencesIs(o, [], R);
    ListedHere(o, f, R);
    if DistinctFixups(o) { DistinctIs(o); }
  }

  lemma ListedHere(n: Node, f: Node, name: Bytes)
    requires Has(n, [])
    ensures Listed(n, f, [], name) == PropLists(f.props, name)
  {
  }

  lemma TwiceNames(x: nat)
    requires x < WORD
    ensures !DistinctBelow(Twice(x)) && PropLists(Twice(x).props, R) == [0]
  {
    var fs := Twice(x).props;
    assert fs[0].name == fs[1].name;
    OtherNames();
    WordBack(0);
    assert Word(0)[4 * 0..4 * 0 + 4] == Word(0) && Offsets(Word(0)) == [0];
    assert PropLists(fs[..2][..1][..0], R) == [] && PropLists(fs[..2][..1], R) == [] && PropLists(fs[..2], R) == [];
  }

  // ----- in the block -----

  /** Both passes over the block, one after the other as fdt_overlay_apply has
      them. */
  method Localize(b: Blob, delta: nat) returns (err: int, ghost m: Node)
    requires b.Valid() && b.IsNode(0, []) && delta < WORD
    requires var cf := FindKid(b.root.kids, FIXUPS); cf < |b.root.kids| ==> NotInto(b.root.kids, b.root.kids[cf], cf)
    modifies b`toks, b`root, b.buf
    ensures Stands(b, old(b.toks), old(b.Strings()), old(b.root)) && b.root == m
    ensures Localized(old(b.root), delta) == (if err == 0 then Good(m) else Bad(err))
  {
    hide *;
    b.ValidParts();
    ghost var ts, strs, o := b.toks, b.Strings(), b.root;
    RootPath(o, o);
    ghost var i := NodeIndex(b, 0, []);
    err, m := AdjustPhandles(b, 0, delta, [], o);
    RootPath(o, m);
    LocalizedBad(o, delta);
    if err != 0 {
      return;
    }
    LocalizedIs(o, delta);
    StandsNode(b, ts, strs, o, [], i);
    NotIntoAdjusted(o, delta);
    ghost var us, n := b.toks, b.root;
    StandsParts(b, ts, strs, o);
    err, m := UpdateLocalReferences(b, delta);
    StandsThen(b, ts, strs, o, us, n);
    FindKidBound(n.kids);
  }

  lemma LocalizedBad(o: Node, delta: nat)
    ensures Adjust(o, delta).Bad? ==> Localized(o, delta) == Adjust(o, delta)
  {
  }

  lemma FindKidBound(kids: seq<Node>)
    ensures FindKid(kids, FIXUPS) <= |kids|
  {
  }

  lemma NotIntoAdjusted(o: Node, delta: nat)
    requires Adjust(o, delta).Good?
    requires var cf := FindKid(o.kids, FIXUPS); cf < |o.kids| ==> NotInto(o.kids, o.kids[cf], cf)
    ensures var n := Adjust(o, delta).n; var cf := FindKid(n.kids, FIXUPS);
      cf < |n.kids| ==> NotInto(n.kids, n.kids[cf], cf)
  {
    hide Adjust, FIXUPS, FindKid;
    FixupsAdjusted(o, delta);
    var n, cf := Adjust(o, delta).n, FindKid(o.kids, FIXUPS);
    AlikeKids(o, n);
    if cf < |o.kids| {
      forall i | 0 <= i < |n.kids[cf].kids| ensures FindKid(n.kids, n.kids[cf].kids[i].name) != cf {
        assert SameBut(o.kids[cf].kids[i], n.kids[cf].kids[i]);
        SameKid(o.kids, n.kids, o.kids[cf].kids[i].name);
      }
    }
  }
}
