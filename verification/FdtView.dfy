/** From tokens to the tree: where in the block the parts of a node stand. */
module FdtView {
  import opened FdtBytes
  import opened FdtTokens
  import opened FdtTree

  function NameOf(t: Token, strs: Bytes): StringResult
    requires t.Prop?
  {
    GetString(strs, AsInt(t.nameoff))
  }

  /** What a token contributes to the tree. */
  function Meaning(t: Token, strs: Bytes): seq<Item> {
    match t
    case BeginNode(name) => [Open(name)]
    case EndNode => [Close]
    case Prop(_, value) => if NameOf(t, strs).Found? then [Item(P(NameOf(t, strs).s, value))] else []
    case _ => []
  }

  function View(ts: seq<Token>, strs: Bytes): seq<Item> {
    if ts == [] then [] else Meaning(ts[0], strs) + View(ts[1..], strs)
  }

  lemma {:induction false} ViewAppend(ts: seq<Token>, us: seq<Token>, strs: Bytes)
    ensures View(ts + us, strs) == View(ts, strs) + View(us, strs)
  {
    if ts == [] {
      assert ts + us == us;
    } else {
      assert (ts + us)[0] == ts[0] && (ts + us)[1..] == ts[1..] + us;
      ViewAppend(ts[1..], us, strs);
    }
  }

  lemma ViewCut(ts: seq<Token>, i: nat, j: nat, strs: Bytes)
    requires i <= j <= |ts|
    ensures View(ts[i..], strs) == View(ts[i..j], strs) + View(ts[j..], strs)
    ensures View(ts[..j], strs) == View(ts[..i], strs) + View(ts[i..j], strs)
  {
    assert ts[i..] == ts[i..j] + ts[j..] && ts[..j] == ts[..i] + ts[i..j];
    ViewAppend(ts[i..j], ts[j..], strs);
    ViewAppend(ts[..i], ts[i..j], strs);
  }

  lemma ViewStep(ts: seq<Token>, i: nat, strs: Bytes)
    requires i < |ts|
    ensures View(ts[i..], strs) == Meaning(ts[i], strs) + View(ts[i + 1..], strs)
    ensures View(ts[i..i + 1], strs) == Meaning(ts[i], strs)
  {
    assert ts[i..][0] == ts[i] && ts[i..][1..] == ts[i + 1..];
    assert ts[i..i + 1] == [ts[i]] && [ts[i]][1..] == [];
  }

  predicate Named(ts: seq<Token>, strs: Bytes) {
    forall t :: t in ts && t.Prop? ==> NameOf(t, strs).Found?
  }

  /** The block is the tree root, followed by one END token. */
  ghost predicate Represents(ts: seq<Token>, strs: Bytes, root: Node) {
    && 0 < |ts| && ts[|ts| - 1] == End && End !in ts[..|ts| - 1]
    && Named(ts, strs) && View(ts, strs) == Items(root)
  }

  /** The i-th token begins the node at p. */
  ghost predicate NodeAt(ts: seq<Token>, strs: Bytes, root: Node, p: Path, i: nat) {
    && Represents(ts, strs, root) && Has(root, p) && i < |ts| && ts[i].BeginNode?
    && View(ts[..i], strs) == Before(root, p)
  }

  lemma NodeItems(ts: seq<Token>, strs: Bytes, root: Node, p: Path, i: nat)
    requires NodeAt(ts, strs, root, p, i)
    ensures View(ts[i..], strs) == Items(At(root, p)) + After(root, p)
    ensures View(ts[i + 1..], strs) == PropItems(At(root, p).props) + (KidItems(At(root, p).kids) + [Close] + After(root, p))
    ensures ts[i].name == At(root, p).name
  {
    var n := At(root, p);
    var s := View(ts[i..], strs);
    ItemsAround(root, p, n);
    ViewCut(ts, 0, i, strs);
    assert ts[0..] == ts && ts[0..i] == ts[..i];
    ViewStep(ts, i, strs);
    ItemsOpen(n, After(root, p));
    NodeItemsStep(Before(root, p), s, Items(n), After(root, p), ts[i].name, View(ts[i + 1..], strs));
  }

  lemma NodeItemsStep(b: seq<Item>, s: seq<Item>, x: seq<Item>, r: seq<Item>, name: Bytes, v: seq<Item>)
    requires b + s == b + x + r && s == [Open(name)] + v
    ensures s == x + r && s[0] == Open(name) && s[1..] == v
  {
    assert b + x + r == b + (x + r);
    SameTail(b, s, x + r);
    Cons(Open(name), v);
  }

  lemma SameTail<T>(a: seq<T>, b: seq<T>, c: seq<T>)
    requires a + b == a + c
    ensures b == c
  {
    assert (a + b)[|a|..] == b && (a + c)[|a|..] == c;
  }

  lemma ItemsOpen(n: Node, s: seq<Item>)
    ensures (Items(n) + s)[0] == Open(n.name)
    ensures (Items(n) + s)[1..] == PropItems(n.props) + (KidItems(n.kids) + [Close] + s)
  {
    var t := PropItems(n.props) + (KidItems(n.kids) + [Close] + s);
    assert Items(n) + s == [Open(n.name)] + t;
  }

  /** The items ahead are k-th and later properties, then something else. */
  ghost predicate PropsAhead(ts: seq<Token>, strs: Bytes, j: nat, ps: seq<NodeProp>, k: nat, rest: seq<Item>) {
    && j <= |ts| && k <= |ps| && rest != [] && !rest[0].Item?
    && View(ts[j..], strs) == PropItems(ps[k..]) + rest
  }

  /** What a token that is not NOP or END contributes, in one piece. */
  lemma MeaningOne(t: Token, strs: Bytes)
    requires t.Prop? ==> NameOf(t, strs).Found?
    ensures t.Nop? || t.End? ==> Meaning(t, strs) == []
    ensures t.Prop? ==> Meaning(t, strs) == [Item(P(NameOf(t, strs).s, t.value))]
    ensures t.BeginNode? ==> Meaning(t, strs) == [Open(t.name)]
    ensures t.EndNode? ==> Meaning(t, strs) == [Close]
  {
  }

  lemma Cons<T>(x: T, v: seq<T>)
    ensures ([x] + v)[0] == x && ([x] + v)[1..] == v && [] + v == v
  {
  }

  lemma PropHead(ps: seq<NodeProp>, k: nat, rest: seq<Item>)
    requires k <= |ps|
    ensures k == |ps| ==> PropItems(ps[k..]) + rest == rest
    ensures k < |ps| ==> PropItems(ps[k..]) + rest == [Item(ps[k])] + (PropItems(ps[k + 1..]) + rest)
  {
    if k < |ps| {
      assert ps[k..][0] == ps[k] && ps[k..][1..] == ps[k + 1..];
    } else {
      assert ps[k..] == [];
    }
  }

  lemma NamedAt(ts: seq<Token>, strs: Bytes, root: Node, j: nat)
    requires Represents(ts, strs, root) && j < |ts|
    ensures ts[j].Prop? ==> NameOf(ts[j], strs).Found?
  {
    assert ts[j] in ts;
  }

  /** Reading on from there: a NOP is skipped, a property is the next one, and
      anything else ends the properties. */
  lemma PropsStep(ts: seq<Token>, strs: Bytes, root: Node, j: nat, ps: seq<NodeProp>, k: nat, rest: seq<Item>)
    requires Represents(ts, strs, root) && PropsAhead(ts, strs, j, ps, k, rest)
    ensures j < |ts| - 1 && ts[j] != End
    ensures ts[j].Nop? ==> PropsAhead(ts, strs, j + 1, ps, k, rest)
    ensures ts[j].Prop? ==> k < |ps| && NameOf(ts[j], strs) == Found(ps[k].name) && ts[j].value == ps[k].value
    ensures ts[j].Prop? ==> PropsAhead(ts, strs, j + 1, ps, k + 1, rest)
    ensures ts[j].BeginNode? || ts[j].EndNode? ==> k == |ps|
  {
    hide View, PropItems, Items, Represents, Meaning, NameOf;
    PropHead(ps, k, rest);
    if k < |ps| { Cons(Item(ps[k]), PropItems(ps[k + 1..]) + rest); }
    LastIsEnd(ts, strs, root, j);
    ViewStep(ts, j, strs);
    NamedAt(ts, strs, root, j);
    MeaningOne(ts[j], strs);
    var v := View(ts[j + 1..], strs);
    match ts[j]
    case Nop => Cons(Close, v);
    case Prop(_, value) => Cons(Item(P(NameOf(ts[j], strs).s, value)), v);
    case BeginNode(name) => Cons(Open(name), v);
    case EndNode => Cons(Close, v);
    case End =>
  }

  lemma LastIsEnd(ts: seq<Token>, strs: Bytes, root: Node, j: nat)
    requires Represents(ts, strs, root) && j <= |ts| && View(ts[j..], strs) != []
    ensures j < |ts| - 1 && ts[j] != End
  {
    var last := |ts| - 1;
    ViewStep(ts, last, strs);
    assert ts[last + 1..] == [] && ts[|ts|..] == [];
    if j < last { assert ts[..last][j] == ts[j]; }
  }

  /** The items that follow the properties of a node. */
  function Behind(root: Node, p: Path): seq<Item>
    requires Has(root, p)
  {
    KidItems(At(root, p).kids) + [Close] + After(root, p)
  }

  lemma {:induction false} KidsOpen(kids: seq<Node>, s: seq<Item>)
    requires s != [] && s[0].Close?
    ensures KidItems(kids) + s != [] && !(KidItems(kids) + s)[0].Item?
  {
    if kids != [] {
      ItemsOpen(kids[0], KidItems(kids[1..]) + s);
      assert KidItems(kids) + s == Items(kids[0]) + (KidItems(kids[1..]) + s);
    }
  }

  lemma PropsStart(ts: seq<Token>, strs: Bytes, root: Node, p: Path, i: nat)
    requires NodeAt(ts, strs, root, p, i)
    ensures PropsAhead(ts, strs, i + 1, At(root, p).props, 0, Behind(root, p))
  {
    NodeItems(ts, strs, root, p, i);
    var n := At(root, p);
    KidsOpen(n.kids, [Close] + After(root, p));
    assert KidItems(n.kids) + ([Close] + After(root, p)) == Behind(root, p);
    assert n.props[0..] == n.props;
  }

  // ----- subnodes -----

  lemma ClosesStep(a: seq<Item>, d: nat)
    requires Closes(a, d)
    ensures a != [] && (a[0].Close? && d == 0 ==> a == [Close])
    ensures a[0].Open? ==> Closes(a[1..], d + 1)
    ensures a[0].Item? ==> Closes(a[1..], d)
    ensures a[0].Close? && d > 0 ==> Closes(a[1..], d - 1)
    ensures a == [a[0]] + a[1..]
  {
  }

  /** The items from the c-th child of the node at p on. */
  function FromKid(root: Node, p: Path, c: nat): seq<Item>
    requires Has(root, p) && c <= |At(root, p).kids|
  {
    KidItems(At(root, p).kids[c..]) + [Close] + After(root, p)
  }

  /** Reading stands at token x, d nodes deep below the node at p: before its
      c-th child if d is 0, and inside that child otherwise. */
  ghost predicate Ahead(ts: seq<Token>, strs: Bytes, root: Node, p: Path, x: nat, d: nat, c: nat) {
    && Has(root, p) && x <= |ts| && c <= |At(root, p).kids|
    && if d == 0 then
         exists q: seq<NodeProp> :: View(ts[x..], strs) == PropItems(q) + FromKid(root, p, c)
       else
         c < |At(root, p).kids|
         && exists a: seq<Item> {:trigger Closes(a, d - 1)} :: Closes(a, d - 1) && View(ts[x..], strs) == a + FromKid(root, p, c + 1)
  }

  lemma AheadStart(ts: seq<Token>, strs: Bytes, root: Node, p: Path, i: nat)
    requires NodeAt(ts, strs, root, p, i)
    ensures Ahead(ts, strs, root, p, i + 1, 0, 0)
  {
    NodeItems(ts, strs, root, p, i);
    var n := At(root, p);
    assert n.kids[0..] == n.kids;
    assert View(ts[i + 1..], strs) == PropItems(n.props) + FromKid(root, p, 0);
  }

  lemma KidsHead(root: Node, p: Path, c: nat)
    requires Has(root, p) && c <= |At(root, p).kids|
    ensures FromKid(root, p, c) != []
    ensures c == |At(root, p).kids| ==> FromKid(root, p, c) == [Close] + After(root, p)
    ensures c < |At(root, p).kids| ==> FromKid(root, p, c) == Items(At(root, p).kids[c]) + FromKid(root, p, c + 1)
  {
    var kids := At(root, p).kids;
    if c < |kids| {
      assert kids[c..][0] == kids[c] && kids[c..][1..] == kids[c + 1..];
      assert KidItems(kids[c..]) == Items(kids[c]) + KidItems(kids[c + 1..]);
    } else {
      assert kids[c..] == [];
    }
  }

  /** The items after a child are those of the later children and what follows. */
  lemma {:induction false} AfterChild(root: Node, p: Path, c: nat)
    requires Has(root, p) && c < |At(root, p).kids|
    ensures Has(root, p + [c]) && At(root, p + [c]) == At(root, p).kids[c]
    ensures After(root, p + [c]) == FromKid(root, p, c + 1)
    decreases p
  {
    if p == [] {
      assert p + [c] == [c] && [c][1..] == [];
      assert After(root.kids[c], []) == [];
    } else {
      var kid := root.kids[p[0]];
      assert (p + [c])[0] == p[0] && (p + [c])[1..] == p[1..] + [c];
      AfterChild(kid, p[1..], c);
      var ks := KidItems(At(root, p).kids[c + 1..]) + [Close];
      assert After(root, p + [c]) == (ks + After(kid, p[1..])) + Tail(root, p[0]);
      assert After(root, p) == After(kid, p[1..]) + Tail(root, p[0]);
      hide KidItems, After, Tail;
      assert ks + After(kid, p[1..]) + Tail(root, p[0]) == ks + (After(kid, p[1..]) + Tail(root, p[0]));
    }
  }

  /** An opening before the c-th child opens that child. */
  lemma ChildAt(ts: seq<Token>, strs: Bytes, root: Node, p: Path, x: nat, c: nat)
    requires Represents(ts, strs, root) && Has(root, p) && c < |At(root, p).kids| && x < |ts| && ts[x].BeginNode?
    requires View(ts[x..], strs) == FromKid(root, p, c)
    ensures NodeAt(ts, strs, root, p + [c], x)
    ensures ts[x].name == At(root, p).kids[c].name && Ahead(ts, strs, root, p, x + 1, 1, c)
  {
    hide *;
    AfterChild(root, p, c);
    KidsHead(root, p, c);
    var n := At(root, p).kids[c];
    ItemsAround(root, p + [c], n);
    ViewCut(ts, 0, x, strs);
    assert ts[0..] == ts && ts[0..x] == ts[..x];
    ViewWhole(ts, strs, root);
    NodeAtFrom(ts, strs, root, p + [c], x);
    NodeItems(ts, strs, root, p + [c], x);
    KidCloses(n);
    var a := PropItems(n.props) + (KidItems(n.kids) + [Close]);
    assert PropItems(n.props) + (KidItems(n.kids) + [Close] + After(root, p + [c])) == a + After(root, p + [c]);
    AheadInside(ts, strs, root, p, x + 1, 1, c, a);
  }

  lemma ViewWhole(ts: seq<Token>, strs: Bytes, root: Node)
    requires Represents(ts, strs, root)
    ensures View(ts, strs) == Items(root)
  {
  }

  lemma AheadInside(ts: seq<Token>, strs: Bytes, root: Node, p: Path, x: nat, d: nat, c: nat, a: seq<Item>)
    requires Has(root, p) && x <= |ts| && c < |At(root, p).kids| && 0 < d
    requires Closes(a, d - 1) && View(ts[x..], strs) == a + FromKid(root, p, c + 1)
    ensures Ahead(ts, strs, root, p, x, d, c)
  {
  }

  lemma AheadOutside(ts: seq<Token>, strs: Bytes, root: Node, p: Path, x: nat, c: nat)
    requires Has(root, p) && x <= |ts| && c <= |At(root, p).kids| && View(ts[x..], strs) == FromKid(root, p, c)
    ensures Ahead(ts, strs, root, p, x, 0, c)
  {
    NoProps(FromKid(root, p, c));
  }

  lemma InsideItems(ts: seq<Token>, strs: Bytes, root: Node, p: Path, x: nat, d: nat, c: nat) returns (a: seq<Item>)
    requires Ahead(ts, strs, root, p, x, d, c) && 0 < d
    ensures Has(root, p) && c < |At(root, p).kids| && x <= |ts|
    ensures Closes(a, d - 1) && View(ts[x..], strs) == a + FromKid(root, p, c + 1) && a != []
  {
    a :| Closes(a, d - 1) && View(ts[x..], strs) == a + FromKid(root, p, c + 1);
  }

  lemma NodeAtFrom(ts: seq<Token>, strs: Bytes, root: Node, p: Path, x: nat)
    requires Represents(ts, strs, root) && Has(root, p) && x < |ts| && ts[x].BeginNode?
    requires View(ts[..x], strs) + View(ts[x..], strs) == View(ts, strs)
    requires View(ts, strs) == Before(root, p) + Items(At(root, p)) + After(root, p)
    requires View(ts[x..], strs) == Items(At(root, p)) + After(root, p)
    ensures NodeAt(ts, strs, root, p, x)
  {
    assert Before(root, p) + Items(At(root, p)) + After(root, p) == Before(root, p) + (Items(At(root, p)) + After(root, p));
    var a, b, c := View(ts[..x], strs), Before(root, p), View(ts[x..], strs);
    assert |a| == |b|;
    assert (a + c)[..|a|] == a && (b + c)[..|a|] == b;
  }

  lemma KidCloses(n: Node)
    ensures Closes(PropItems(n.props) + (KidItems(n.kids) + [Close]), 0)
  {
    ClosesProps(n.props, KidItems(n.kids) + [Close], 0);
    ClosesKids(n.kids, [Close], 0);
  }

  /** Reading one token on from there. */
  lemma AheadStep(ts: seq<Token>, strs: Bytes, root: Node, p: Path, x: nat, d: nat, c: nat)
    requires Represents(ts, strs, root) && Ahead(ts, strs, root, p, x, d, c)
    ensures x < |ts| - 1 && ts[x] != End
    ensures ts[x].Nop? || ts[x].Prop? ==> Ahead(ts, strs, root, p, x + 1, d, c)
    ensures ts[x].BeginNode? ==> Ahead(ts, strs, root, p, x + 1, d + 1, c)
    ensures ts[x].BeginNode? && d == 0 ==> c < |At(root, p).kids| && NodeAt(ts, strs, root, p + [c], x)
    ensures ts[x].BeginNode? && d == 0 ==> ts[x].name == At(root, p).kids[c].name
    ensures ts[x].EndNode? && d == 0 ==> c == |At(root, p).kids| && View(ts[x + 1..], strs) == After(root, p)
    ensures ts[x].EndNode? && d == 1 ==> Ahead(ts, strs, root, p, x + 1, 0, c + 1)
    ensures ts[x].EndNode? && d > 1 ==> Ahead(ts, strs, root, p, x + 1, d - 1, c)
  {
    if d == 0 {
      OutsideStep(ts, strs, root, p, x, c);
    } else {
      InsideStep(ts, strs, root, p, x, d, c);
    }
  }

  lemma OutsideStep(ts: seq<Token>, strs: Bytes, root: Node, p: Path, x: nat, c: nat)
    requires Represents(ts, strs, root) && Ahead(ts, strs, root, p, x, 0, c)
    ensures x < |ts| - 1 && ts[x] != End
    ensures ts[x].Nop? || ts[x].Prop? ==> Ahead(ts, strs, root, p, x + 1, 0, c)
    ensures ts[x].BeginNode? ==> Ahead(ts, strs, root, p, x + 1, 1, c)
    ensures ts[x].BeginNode? ==> c < |At(root, p).kids| && NodeAt(ts, strs, root, p + [c], x)
    ensures ts[x].BeginNode? ==> ts[x].name == At(root, p).kids[c].name
    ensures ts[x].EndNode? ==> c == |At(root, p).kids| && View(ts[x + 1..], strs) == After(root, p)
  {
    var q: seq<NodeProp> :| View(ts[x..], strs) == PropItems(q) + FromKid(root, p, c);
    KidsHead(root, p, c);
    FromKidOpens(root, p, c);
    PropHead(q, 0, FromKid(root, p, c));
    assert q[0..] == q;
    if q != [] { Cons(Item(q[0]), PropItems(q[1..]) + FromKid(root, p, c)); }
    hide View, PropItems, Items, Represents, Meaning, NameOf, NodeAt, FromKid, After;
    LastIsEnd(ts, strs, root, x);
    ViewStep(ts, x, strs);
    NamedAt(ts, strs, root, x);
    MeaningOne(ts[x], strs);
    var v := View(ts[x + 1..], strs);
    match ts[x]
    case Nop => Cons(Close, v);
    case Prop(_, value) => Cons(Item(P(NameOf(ts[x], strs).s, value)), v);
    case BeginNode(name) =>
      Cons(Open(name), v);
      if c < |At(root, p).kids| { ChildAt(ts, strs, root, p, x, c); }
    case EndNode =>
      Cons(Close, v);
      Cons(Close, After(root, p));
    case End =>
  }

  lemma FromKidOpens(root: Node, p: Path, c: nat)
    requires Has(root, p) && c <= |At(root, p).kids|
    ensures FromKid(root, p, c) != [] && !FromKid(root, p, c)[0].Item?
    ensures FromKid(root, p, c)[0].Open? <==> c < |At(root, p).kids|
  {
    KidsHead(root, p, c);
    if c < |At(root, p).kids| { ItemsOpen(At(root, p).kids[c], FromKid(root, p, c + 1)); }
  }

  lemma InsideStep(ts: seq<Token>, strs: Bytes, root: Node, p: Path, x: nat, d: nat, c: nat)
    requires Represents(ts, strs, root) && d > 0 && Ahead(ts, strs, root, p, x, d, c)
    ensures x < |ts| - 1 && ts[x] != End
    ensures ts[x].Nop? || ts[x].Prop? ==> Ahead(ts, strs, root, p, x + 1, d, c)
    ensures ts[x].BeginNode? ==> Ahead(ts, strs, root, p, x + 1, d + 1, c)
    ensures ts[x].EndNode? && d == 1 ==> Ahead(ts, strs, root, p, x + 1, 0, c + 1)
    ensures ts[x].EndNode? && d > 1 ==> Ahead(ts, strs, root, p, x + 1, d - 1, c)
  {
    hide *;
    var a := InsideItems(ts, strs, root, p, x, d, c);
    ClosesStep(a, d - 1);
    var f := FromKid(root, p, c + 1);
    LastIsEnd(ts, strs, root, x);
    ViewStep(ts, x, strs);
    NamedAt(ts, strs, root, x);
    MeaningOne(ts[x], strs);
    var v := View(ts[x + 1..], strs);
    if ts[x].Nop? {
      Cons(Close, v);
      AheadInside(ts, strs, root, p, x + 1, d, c, a);
    } else {
      assert a + f == [a[0]] + (a[1..] + f);
      Cons(a[0], a[1..] + f);
      Cons(Meaning(ts[x], strs)[0], v);
      if ts[x].BeginNode? {
        AheadInside(ts, strs, root, p, x + 1, d + 1, c, a[1..]);
      } else if ts[x].Prop? {
        AheadInside(ts, strs, root, p, x + 1, d, c, a[1..]);
      } else if d == 1 {
        assert a[1..] == [];
        NoProps(f);
        AheadOutside(ts, strs, root, p, x + 1, c + 1);
      } else {
        AheadInside(ts, strs, root, p, x + 1, d - 1, c, a[1..]);
      }
    }
  }

  lemma NoProps(f: seq<Item>)
    ensures PropItems([]) + f == f && [] + f == f
  {
  }

  lemma ItemsWhole(n: Node)
    ensures Items(n) == [Open(n.name)] + (PropItems(n.props) + (KidItems(n.kids) + [Close]))
  {
  }

  lemma NodeParts(ts: seq<Token>, strs: Bytes, root: Node, p: Path, i: nat)
    requires NodeAt(ts, strs, root, p, i)
    ensures Represents(ts, strs, root) && Has(root, p) && i < |ts| && ts[i].BeginNode?
    ensures Named(ts, strs) && 0 < |ts| && ts[|ts| - 1] == End && View(ts[..i], strs) == Before(root, p)
    ensures ts[i].name == At(root, p).name
  {
    NodeItems(ts, strs, root, p, i);
  }
}
