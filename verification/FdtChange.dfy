/** What replacing a few tokens does to the tree. */
module FdtChange {
  import opened FdtBytes
  import opened FdtTokens
  import opened FdtTree
  import opened FdtView

  lemma SameHead<T>(a: seq<T>, b: seq<T>, c: seq<T>)
    requires a + c == b + c
    ensures a == b
  {
    assert |a| == |b|;
    assert (a + c)[..|a|] == a && (b + c)[..|a|] == b;
  }

  /** Tokens in the middle are replaced; what the whole stands for follows from
      what the new ones stand for. */
  lemma Rebuilt(pre: seq<Token>, mid: seq<Token>, new_mid: seq<Token>, post: seq<Token>, strs: Bytes, root: Node, p: Path, n: Node)
    requires Represents(pre + mid + post, strs, root) && post != [] && Has(root, p)
    requires Named(new_mid, strs) && End !in new_mid
    requires View(pre, strs) + View(new_mid, strs) + View(post, strs) == Before(root, p) + Items(n) + After(root, p)
    ensures Represents(pre + new_mid + post, strs, Put(root, p, n))
  {
    hide *;
    EndsOnce(pre, mid, new_mid, post, strs, root);
    ViewAppend(pre + new_mid, post, strs);
    ViewAppend(pre, new_mid, strs);
    ItemsAround(root, p, n);
    RepresentsFrom(pre + new_mid + post, strs, Put(root, p, n));
  }

  lemma RepresentsFrom(ts: seq<Token>, strs: Bytes, root: Node)
    requires 0 < |ts| && ts[|ts| - 1] == End && End !in ts[..|ts| - 1]
    requires Named(ts, strs) && View(ts, strs) == Items(root)
    ensures Represents(ts, strs, root)
  {
  }

  lemma EndsOnce(pre: seq<Token>, mid: seq<Token>, new_mid: seq<Token>, post: seq<Token>, strs: Bytes, root: Node)
    requires Represents(pre + mid + post, strs, root) && post != [] && Named(new_mid, strs) && End !in new_mid
    ensures var us := pre + new_mid + post; us[|us| - 1] == End && End !in us[..|us| - 1] && Named(us, strs)
  {
    hide View, Items;
    var ts, us := pre + mid + post, pre + new_mid + post;
    var k := |post| - 1;
    assert ts[..|ts| - 1] == pre + mid + post[..k];
    assert us[..|us| - 1] == pre + new_mid + post[..k];
    assert us[|us| - 1] == post[k] == ts[|ts| - 1];
    forall t | t in us && t.Prop? ensures NameOf(t, strs).Found? {
      assert t in pre || t in new_mid || t in post;
      assert t in pre || t in post ==> t in ts;
    }
  }

  /** The items up to the k-th property of the node at p. */
  function Upto(root: Node, p: Path, k: nat): seq<Item>
    requires Has(root, p) && k <= |At(root, p).props|
  {
    Before(root, p) + ([Open(At(root, p).name)] + PropItems(At(root, p).props[..k]))
  }

  lemma PropsBefore(ts: seq<Token>, strs: Bytes, root: Node, p: Path, j: nat, k: nat)
    requires Represents(ts, strs, root) && Has(root, p)
    requires PropsAhead(ts, strs, j, At(root, p).props, k, Behind(root, p))
    ensures View(ts[..j], strs) == Upto(root, p, k)
  {
    hide View, Items, KidItems, PropItems, Before, After;
    var n := At(root, p);
    ItemsAround(root, p, n);
    ItemsWhole(n);
    PropItemsAppend(n.props[..k], n.props[k..]);
    assert n.props[..k] + n.props[k..] == n.props;
    ViewCut(ts, 0, j, strs);
    assert ts[0..] == ts && ts[0..j] == ts[..j];
    var b, o, q, r, ks, s := Before(root, p), [Open(n.name)], PropItems(n.props[..k]), PropItems(n.props[k..]), KidItems(n.kids) + [Close], After(root, p);
    UptoSplit(b, o, q, r, ks, s);
    SameHead(View(ts[..j], strs), Upto(root, p, k), r + Behind(root, p));
  }

  lemma UptoSplit<T>(b: seq<T>, o: seq<T>, q: seq<T>, r: seq<T>, k: seq<T>, s: seq<T>)
    ensures b + (o + ((q + r) + k)) + s == (b + (o + q)) + (r + (k + s))
  {
  }

  /** One property of a node is replaced, or kept out, or put in. */
  lemma PropChanged(ts: seq<Token>, strs: Bytes, root: Node, p: Path, j: nat, k: nat, j': nat, k': nat, us: seq<Token>, qs: seq<NodeProp>)
    requires Represents(ts, strs, root) && Has(root, p) && j <= j' && k <= k'
    requires PropsAhead(ts, strs, j, At(root, p).props, k, Behind(root, p))
    requires PropsAhead(ts, strs, j', At(root, p).props, k', Behind(root, p))
    requires Named(us, strs) && End !in us && View(us, strs) == PropItems(qs)
    ensures j' < |ts|
    ensures Represents(ts[..j] + us + ts[j'..], strs,
                       Put(root, p, At(root, p).(props := At(root, p).props[..k] + qs + At(root, p).props[k'..])))
  {
    hide *;
    var n := At(root, p);
    AheadBounds(ts, strs, j, n.props, k, Behind(root, p));
    AheadBounds(ts, strs, j', n.props, k', Behind(root, p));
    var m := n.(props := n.props[..k] + qs + n.props[k'..]);
    LastIsEnd(ts, strs, root, j');
    PropsBefore(ts, strs, root, p, j, k);
    PropItemsAppend(n.props[..k] + qs, n.props[k'..]);
    PropItemsAppend(n.props[..k], qs);
    ItemsWhole(m);
    BehindIs(root, p);
    UptoIs(root, p, k);
    assert ts == ts[..j] + ts[j..j'] + ts[j'..];
    UptoSplit(Before(root, p), [Open(n.name)], PropItems(n.props[..k]), PropItems(qs) + PropItems(n.props[k'..]), KidItems(n.kids) + [Close], After(root, p));
    PropViews(Upto(root, p, k), PropItems(n.props[..k]), PropItems(qs), PropItems(n.props[k'..]), Behind(root, p));
    Rebuilt(ts[..j], ts[j..j'], us, ts[j'..], strs, root, p, m);
  }

  lemma AheadBounds(ts: seq<Token>, strs: Bytes, j: nat, ps: seq<NodeProp>, k: nat, rest: seq<Item>)
    requires PropsAhead(ts, strs, j, ps, k, rest)
    ensures j <= |ts| && k <= |ps| && View(ts[j..], strs) == PropItems(ps[k..]) + rest != []
  {
  }

  lemma BehindIs(root: Node, p: Path)
    requires Has(root, p)
    ensures Behind(root, p) == KidItems(At(root, p).kids) + [Close] + After(root, p)
  {
  }

  lemma UptoIs(root: Node, p: Path, k: nat)
    requires Has(root, p) && k <= |At(root, p).props|
    ensures Upto(root, p, k) == Before(root, p) + ([Open(At(root, p).name)] + PropItems(At(root, p).props[..k]))
  {
  }

  lemma PropViews<T>(u: seq<T>, a: seq<T>, q: seq<T>, r: seq<T>, s: seq<T>)
    ensures u + q + (r + s) == u + ((q + r) + s) && (a + q) + r == a + (q + r)
  {
  }

  /** The tokens of a node that has neither properties nor subnodes. */
  function EmptyNode(name: Bytes): seq<Token> { [BeginNode(name), EndNode] }

  lemma EmptyNodeItems(name: Bytes, strs: Bytes)
    ensures View(EmptyNode(name), strs) == Items(FdtTree.Node(name, [], []))
    ensures Named(EmptyNode(name), strs) && End !in EmptyNode(name)
  {
    var us := EmptyNode(name);
    assert us == [BeginNode(name)] + [EndNode];
    ViewAppend([BeginNode(name)], [EndNode], strs);
    ViewOne(BeginNode(name), strs);
    ViewOne(EndNode, strs);
    ItemsWhole(FdtTree.Node(name, [], []));
  }

  lemma ViewOne(t: Token, strs: Bytes)
    ensures View([t], strs) == Meaning(t, strs)
  {
    assert [t][1..] == [];
  }

  /** A new node is put in front of the subnodes of the node at p. */
  lemma NodeAdded(ts: seq<Token>, strs: Bytes, root: Node, p: Path, j: nat, name: Bytes)
    requires Represents(ts, strs, root) && Has(root, p)
    requires PropsAhead(ts, strs, j, At(root, p).props, |At(root, p).props|, Behind(root, p))
    ensures j < |ts| && Represents(ts[..j] + EmptyNode(name) + ts[j..], strs, Put(root, p, AddSubnode(At(root, p), name)))
  {
    hide View, Items, PropItems, Before, After, Represents, Named, EmptyNode;
    var n := At(root, p);
    var m := AddSubnode(n, name);
    var x := FdtTree.Node(name, [], []);
    PropHead(n.props, |n.props|, Behind(root, p));
    LastIsEnd(ts, strs, root, j);
    PropsBefore(ts, strs, root, p, j, |n.props|);
    assert n.props[..|n.props|] == n.props;
    EmptyNodeItems(name, strs);
    KidsCons(x, n.kids);
    ItemsWhole(m);
    assert ts == ts[..j] + [] + ts[j..];
    hide KidItems;
    NodeViews(Before(root, p), [Open(n.name)], PropItems(n.props), Items(x), KidItems(n.kids), [Close], After(root, p));
    Rebuilt(ts[..j], [], EmptyNode(name), ts[j..], strs, root, p, m);
  }

  lemma KidsCons(x: Node, kids: seq<Node>)
    ensures KidItems([x] + kids) == Items(x) + KidItems(kids)
  {
    assert ([x] + kids)[0] == x && ([x] + kids)[1..] == kids;
  }

  lemma NodeViews<T>(b: seq<T>, o: seq<T>, q: seq<T>, x: seq<T>, k: seq<T>, c: seq<T>, s: seq<T>)
    ensures (b + (o + q)) + x + (k + c + s) == b + (o + (q + ((x + k) + c))) + s
  {
  }

  /** A subnode is taken out, with or without NOPs in its place. */
  lemma NodeRemoved(ts: seq<Token>, strs: Bytes, root: Node, p: Path, c: nat, i: nat, e: nat, us: seq<Token>)
    requires Has(root, p) && c < |At(root, p).kids| && NodeAt(ts, strs, root, p + [c], i)
    requires i < e <= |ts| && View(ts[e..], strs) == FromKid(root, p, c + 1)
    requires forall t :: t in us ==> t.Nop?
    ensures e < |ts| && Represents(ts[..i] + us + ts[e..], strs, Put(root, p, DelChild(At(root, p), c)))
  {
    hide *;
    NodeParts(ts, strs, root, p + [c], i);
    var m := DelChild(At(root, p), c);
    AfterChild(root, p, c);
    KidsHead(root, p, c + 1);
    LastIsEnd(ts, strs, root, e);
    ItemsWithout(root, p, c);
    ItemsAround(root, p, m);
    NopsView(us, strs);
    assert ts == ts[..i] + ts[i..e] + ts[e..];
    assert Before(root, p + [c]) + [] + After(root, p + [c]) == Before(root, p + [c]) + After(root, p + [c]);
    Rebuilt(ts[..i], ts[i..e], us, ts[e..], strs, root, p, m);
  }

  lemma {:induction false} NopsView(us: seq<Token>, strs: Bytes)
    requires forall t :: t in us ==> t.Nop?
    ensures View(us, strs) == [] && Named(us, strs) && End !in us
  {
    if us != [] {
      assert us[0] in us && forall t :: t in us[1..] ==> t in us;
      NopsView(us[1..], strs);
      assert us == [us[0]] + us[1..];
    }
  }

  // ----- strings added at the end -----

  lemma StringStays(strs: Bytes, more: Bytes, off: int)
    requires GetString(strs, off).Found?
    ensures GetString(strs + more, off) == GetString(strs, off)
  {
    var s := GetString(strs, off).s;
    GetStringIs(strs, off, s);
    StrWithin([], strs, more, off, s);
    assert [] + strs + more == strs + more;
    GetStringIs(strs + more, off, s);
  }

  lemma {:induction false} ViewStays(ts: seq<Token>, strs: Bytes, more: Bytes)
    requires Named(ts, strs)
    ensures Named(ts, strs + more) && View(ts, strs + more) == View(ts, strs)
  {
    forall t | t in ts && t.Prop? ensures NameOf(t, strs + more).Found? {
      StringStays(strs, more, AsInt(t.nameoff));
    }
    if ts != [] {
      assert ts[0] in ts;
      ViewStays(ts[1..], strs, more);
      if ts[0].Prop? { StringStays(strs, more, AsInt(ts[0].nameoff)); }
    }
  }

  lemma NodeStays(ts: seq<Token>, strs: Bytes, more: Bytes, root: Node, p: Path, i: nat)
    requires NodeAt(ts, strs, root, p, i)
    ensures NodeAt(ts, strs + more, root, p, i)
  {
    ViewStays(ts, strs, more);
    assert forall t :: t in ts[..i] ==> t in ts;
    ViewStays(ts[..i], strs, more);
  }

  /** What lies before a node does not depend on the node. */
  lemma {:induction false} BeforeStays(n: Node, p: Path, x: Node)
    requires Has(n, p)
    ensures Has(Put(n, p, x), p) && At(Put(n, p, x), p) == x && Before(Put(n, p, x), p) == Before(n, p)
    decreases p
  {
    if p != [] {
      var k := p[0];
      BeforeStays(n.kids[k], p[1..], x);
      assert Put(n, p, x).kids[..k] == n.kids[..k];
    }
  }

  /** A change inside a node leaves the node where it is. */
  lemma NodeKept(ts: seq<Token>, us: seq<Token>, strs: Bytes, root: Node, p: Path, i: nat, n: Node)
    requires NodeAt(ts, strs, root, p, i) && i < |us| && us[..i] == ts[..i] && us[i] == ts[i]
    requires Represents(us, strs, Put(root, p, n))
    ensures NodeAt(us, strs, Put(root, p, n), p, i)
  {
    BeforeStays(root, p, n);
  }
}
