/** The tree behind a structure block.

    A tree is written as a run of items: a node opens, gives its properties, then
    its subnodes, and closes.  The tokens of a block, names looked up and NOPs
    left out, are such a run. */
module FdtTree {
  import opened FdtBytes
  import opened FdtTokens

  datatype NodeProp = P(name: Bytes, value: Bytes)
  datatype Node = Node(name: Bytes, props: seq<NodeProp>, kids: seq<Node>)
  datatype Item = Open(name: Bytes) | Item(prop: NodeProp) | Close

  function PropItems(ps: seq<NodeProp>): seq<Item> {
    if ps == [] then [] else [Item(ps[0])] + PropItems(ps[1..])
  }

  function KidItems(kids: seq<Node>): seq<Item>
    decreases kids
  {
    if kids == [] then [] else Items(kids[0]) + KidItems(kids[1..])
  }

  function Items(n: Node): seq<Item>
    decreases n
  {
    [Open(n.name)] + PropItems(n.props) + KidItems(n.kids) + [Close]
  }

  lemma {:induction false} PropItemsAppend(ps: seq<NodeProp>, qs: seq<NodeProp>)
    ensures PropItems(ps + qs) == PropItems(ps) + PropItems(qs)
  {
    if ps == [] {
      assert ps + qs == qs;
    } else {
      assert (ps + qs)[0] == ps[0] && (ps + qs)[1..] == ps[1..] + qs;
      PropItemsAppend(ps[1..], qs);
    }
  }

  lemma {:induction false} KidItemsAppend(ks: seq<Node>, ls: seq<Node>)
    ensures KidItems(ks + ls) == KidItems(ks) + KidItems(ls)
    decreases ks
  {
    if ks == [] {
      assert ks + ls == ls;
    } else {
      assert (ks + ls)[0] == ks[0] && (ks + ls)[1..] == ks[1..] + ls;
      KidItemsAppend(ks[1..], ls);
    }
  }

  // ----- nodes by their path -----

  /** A path names a node by the number of a child at every step. */
  type Path = seq<nat>

  predicate Has(n: Node, p: Path)
    decreases p
  {
    p == [] || (p[0] < |n.kids| && Has(n.kids[p[0]], p[1..]))
  }

  function At(n: Node, p: Path): Node
    requires Has(n, p)
    decreases p
  {
    if p == [] then n else At(n.kids[p[0]], p[1..])
  }

  function Put(n: Node, p: Path, x: Node): Node
    requires Has(n, p)
    decreases p
  {
    if p == [] then x else n.(kids := n.kids[p[0] := Put(n.kids[p[0]], p[1..], x)])
  }

  /** The items of n before those of its k-th child, and after them. */
  function Head(n: Node, k: nat): seq<Item>
    requires k <= |n.kids|
  {
    [Open(n.name)] + PropItems(n.props) + KidItems(n.kids[..k])
  }

  function Tail(n: Node, k: nat): seq<Item>
    requires k < |n.kids|
  {
    KidItems(n.kids[k + 1..]) + [Close]
  }

  /** The items before and after those of the node at p. */
  function Before(n: Node, p: Path): seq<Item>
    requires Has(n, p)
    decreases p
  {
    if p == [] then [] else Head(n, p[0]) + Before(n.kids[p[0]], p[1..])
  }

  function After(n: Node, p: Path): seq<Item>
    requires Has(n, p)
    decreases p
  {
    if p == [] then [] else After(n.kids[p[0]], p[1..]) + Tail(n, p[0])
  }

  lemma KidsAround(kids: seq<Node>, k: nat, x: Node)
    requires k < |kids|
    ensures KidItems(kids[k := x]) == KidItems(kids[..k]) + Items(x) + KidItems(kids[k + 1..])
  {
    assert kids[k := x] == kids[..k] + ([x] + kids[k + 1..]);
    KidItemsAppend(kids[..k], [x] + kids[k + 1..]);
    assert ([x] + kids[k + 1..])[1..] == kids[k + 1..];
    hide Items;
  }

  lemma HeadTail(n: Node, k: nat, x: Node)
    requires k < |n.kids|
    ensures Items(n.(kids := n.kids[k := x])) == Head(n, k) + Items(x) + Tail(n, k)
    ensures Items(n) == Head(n, k) + Items(n.kids[k]) + Tail(n, k)
  {
    KidsAround(n.kids, k, x);
    KidsAround(n.kids, k, n.kids[k]);
    assert n.kids[k := n.kids[k]] == n.kids;
    hide KidItems, PropItems;
    Regroup5([Open(n.name)] + PropItems(n.props), KidItems(n.kids[..k]), Items(x), KidItems(n.kids[k + 1..]), [Close]);
    Regroup5([Open(n.name)] + PropItems(n.props), KidItems(n.kids[..k]), Items(n.kids[k]), KidItems(n.kids[k + 1..]), [Close]);
  }

  lemma Regroup5<T>(a: seq<T>, b: seq<T>, c: seq<T>, d: seq<T>, e: seq<T>)
    ensures a + (b + c + d) + e == (a + b) + c + (d + e)
  {
  }

  /** Replacing the node at p replaces its items and no others. */
  lemma {:induction false} ItemsAround(n: Node, p: Path, x: Node)
    requires Has(n, p)
    ensures Items(n) == Before(n, p) + Items(At(n, p)) + After(n, p)
    ensures Items(Put(n, p, x)) == Before(n, p) + Items(x) + After(n, p)
    decreases p
  {
    if p != [] {
      var k := p[0];
      var kid := n.kids[k];
      ItemsAround(kid, p[1..], x);
      HeadTail(n, k, Put(kid, p[1..], x));
      hide Items, Head, Tail;
      Regroup5(Head(n, k), Before(kid, p[1..]), Items(At(n, p)), After(kid, p[1..]), Tail(n, k));
      Regroup5(Head(n, k), Before(kid, p[1..]), Items(x), After(kid, p[1..]), Tail(n, k));
    }
  }

  /** Removing a child removes its items. */
  lemma {:induction false} ItemsWithout(n: Node, p: Path, k: nat)
    requires Has(n, p) && k < |At(n, p).kids|
    ensures Has(n, p + [k]) && At(n, p + [k]) == At(n, p).kids[k]
    ensures Items(Put(n, p, DelChild(At(n, p), k))) == Before(n, p + [k]) + After(n, p + [k])
    decreases p
  {
    if p == [] {
      assert p + [k] == [k] && [k][1..] == [];
      KidGone(n, k);
    } else {
      var j := p[0];
      var kid := n.kids[j];
      assert (p + [k])[0] == j && (p + [k])[1..] == p[1..] + [k];
      ItemsWithout(kid, p[1..], k);
      HeadTail(n, j, Put(kid, p[1..], DelChild(At(n, p), k)));
      hide Items, Head, Tail, DelChild;
      Regroup4(Head(n, j), Before(kid, p[1..] + [k]), After(kid, p[1..] + [k]), Tail(n, j));
    }
  }

  lemma Regroup4<T>(a: seq<T>, b: seq<T>, c: seq<T>, d: seq<T>)
    ensures a + (b + c) + d == (a + b) + (c + d)
  {
  }

  lemma KidGone(n: Node, k: nat)
    requires k < |n.kids|
    ensures Has(n, [k]) && Items(DelChild(n, k)) == Head(n, k) + Tail(n, k)
    ensures Before(n, [k]) == Head(n, k) && After(n, [k]) == Tail(n, k)
  {
    KidItemsAppend(n.kids[..k], n.kids[k + 1..]);
    assert [k][1..] == [];
    var c := n.kids[k];
    assert Before(c, []) == [] && After(c, []) == [];
    hide KidItems, PropItems;
    Regroup4([Open(n.name)] + PropItems(n.props), KidItems(n.kids[..k]), KidItems(n.kids[k + 1..]), [Close]);
  }

  // ----- where a node ends -----

  /** From inside d + 1 open nodes, the items close the innermost d + 1 and end
      with the last of them. */
  predicate Closes(s: seq<Item>, d: nat) {
    s != [] &&
    match s[0]
    case Open(_) => Closes(s[1..], d + 1)
    case Item(_) => Closes(s[1..], d)
    case Close => if d == 0 then s == [Close] else Closes(s[1..], d - 1)
  }

  lemma {:induction false} ClosesProps(ps: seq<NodeProp>, s: seq<Item>, d: nat)
    ensures Closes(PropItems(ps) + s, d) <==> Closes(s, d)
  {
    if ps == [] {
      assert PropItems(ps) + s == s;
    } else {
      assert (PropItems(ps) + s)[1..] == PropItems(ps[1..]) + s;
      ClosesProps(ps[1..], s, d);
    }
  }

  lemma {:induction false} ClosesKids(kids: seq<Node>, s: seq<Item>, d: nat)
    ensures Closes(KidItems(kids) + s, d) <==> Closes(s, d)
    decreases kids
  {
    if kids == [] {
      assert KidItems(kids) + s == s;
    } else {
      assert KidItems(kids) + s == Items(kids[0]) + (KidItems(kids[1..]) + s);
      ClosesNode(kids[0], KidItems(kids[1..]) + s, d);
      ClosesKids(kids[1..], s, d);
    }
  }

  lemma {:induction false} ClosesNode(n: Node, s: seq<Item>, d: nat)
    ensures Closes(Items(n) + s, d) <==> Closes(s, d)
    decreases n
  {
    var t := PropItems(n.props) + (KidItems(n.kids) + ([Close] + s));
    assert Items(n) + s == [Open(n.name)] + t;
    assert (Items(n) + s)[1..] == t;
    ClosesProps(n.props, KidItems(n.kids) + ([Close] + s), d + 1);
    ClosesKids(n.kids, [Close] + s, d + 1);
    assert ([Close] + s)[1..] == s;
  }

  // ----- edits of one node -----

  /** The place of the first property of that name, or the number of properties. */
  function FindProp(ps: seq<NodeProp>, name: Bytes): (k: nat)
    ensures k <= |ps| && (k < |ps| ==> ps[k].name == name) && forall i :: 0 <= i < k ==> ps[i].name != name
  {
    if ps == [] then 0 else if ps[0].name == name then 0 else 1 + FindProp(ps[1..], name)
  }

  function SetProp(n: Node, name: Bytes, value: Bytes): Node {
    var k := FindProp(n.props, name);
    n.(props := if k < |n.props| then n.props[k := P(name, value)] else [P(name, value)] + n.props)
  }

  function AppendProp(n: Node, name: Bytes, value: Bytes): Node {
    var k := FindProp(n.props, name);
    n.(props := if k < |n.props| then n.props[k := P(name, n.props[k].value + value)] else [P(name, value)] + n.props)
  }

  function DelProp(n: Node, name: Bytes): Node {
    var k := FindProp(n.props, name);
    if k < |n.props| then n.(props := n.props[..k] + n.props[k + 1..]) else n
  }

  function AddSubnode(n: Node, name: Bytes): Node {
    n.(kids := [Node(name, [], [])] + n.kids)
  }

  function DelChild(n: Node, k: nat): Node
    requires k < |n.kids|
  {
    n.(kids := n.kids[..k] + n.kids[k + 1..])
  }

  /** What is read for a property after it was set: the new value; any other
      property reads as before. */
  lemma SetPropReads(n: Node, name: Bytes, value: Bytes, other: Bytes)
    ensures Lookup(SetProp(n, name, value), name) == Found(value)
    ensures other != name ==> Lookup(SetProp(n, name, value), other) == Lookup(n, other)
  {
    var k, m := FindProp(n.props, name), SetProp(n, name, value);
    FindPropIs(m.props, name, if k < |n.props| then k else 0);
    if other != name {
      var j := FindProp(n.props, other);
      var shift := if k < |n.props| then 0 else 1;
      if j < |n.props| {
        FindPropIs(m.props, other, j + shift);
      } else {
        NoProp(m.props, other);
      }
    }
  }

  lemma FindPropIs(ps: seq<NodeProp>, name: Bytes, k: nat)
    requires k < |ps| && ps[k].name == name && forall i :: 0 <= i < k ==> ps[i].name != name
    ensures FindProp(ps, name) == k
  {
  }

  lemma NoProp(ps: seq<NodeProp>, name: Bytes)
    requires forall i :: 0 <= i < |ps| ==> ps[i].name != name
    ensures FindProp(ps, name) == |ps|
  {
  }

  const ERR_NOTFOUND: int := 1

  function Lookup(n: Node, name: Bytes): StringResult {
    var k := FindProp(n.props, name);
    if k < |n.props| then Found(n.props[k].value) else Failed(-ERR_NOTFOUND)
  }

  const AT_SIGN: byte := 64

  /** fdt_nodename_eq_: the whole name, or all of it up to the unit address when
      the name asked for has none. */
  predicate NameEq(full: Bytes, s: Bytes) {
    && |s| <= |full| && full[..|s|] == s
    && (|full| == |s| || (AT_SIGN !in s && full[|s|] == AT_SIGN))
  }

  /** The first child that a name finds, or the number of children. */
  function FindKid(kids: seq<Node>, s: Bytes): (k: nat)
    ensures k <= |kids| && (k < |kids| ==> NameEq(kids[k].name, s)) && forall i :: 0 <= i < k ==> !NameEq(kids[i].name, s)
  {
    if kids == [] then 0 else if NameEq(kids[0].name, s) then 0 else 1 + FindKid(kids[1..], s)
  }
}
