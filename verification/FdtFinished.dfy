/** From the writer to the tree: what was written sequentially is, once it is
    finished, a tree that can be read and edited. */
module FdtFinished {
  import opened Common
  import opened FdtBytes
  import opened FdtTokens
  import opened FdtTree
  import opened FdtView
  import opened FdtWriter
  import opened FdtEdit

  /** What a written event adds to the tree. */
  function AsItem(e: Event): Item {
    match e
    case Begin(name) => Open(name)
    case Property(name, value) => Item(P(name, value))
    case Finish => Close
  }

  function AsItems(es: seq<Event>): seq<Item> {
    seq(|es|, i requires 0 <= i < |es| => AsItem(es[i]))
  }

  lemma EventMeaning(t: Token, e: Event, strs: Bytes)
    requires Stands(t, e, strs, true)
    ensures t != End && (t.Prop? ==> NameOf(t, strs).Found?) && Meaning(t, strs) == [AsItem(e)]
  {
    if e.Property? { GetStringIs(strs, AsInt(t.nameoff), e.name); }
  }

  lemma {:induction false} EventsView(ts: seq<Token>, es: seq<Event>, strs: Bytes)
    requires StandsAll(ts, es, strs, true)
    ensures Named(ts, strs) && End !in ts && View(ts, strs) == AsItems(es)
  {
    hide Stands, Meaning;
    if ts != [] {
      EventMeaning(ts[0], es[0], strs);
      assert forall i :: 0 <= i < |ts| - 1 ==> Stands(ts[1..][i], es[1..][i], strs, true);
      EventsView(ts[1..], es[1..], strs);
      assert forall t :: t in ts ==> t == ts[0] || t in ts[1..];
      assert AsItems(es) == [AsItem(es[0])] + AsItems(es[1..]);
    }
  }

  /** A finished block is the tree n exactly if what was written, read as items, is
      how n is written down. */
  lemma FinishedIs(ts: seq<Token>, es: seq<Event>, strs: Bytes, n: Node)
    requires 0 < |ts| && ts[|ts| - 1] == End && StandsAll(ts[..|ts| - 1], es, strs, true)
    ensures Represents(ts, strs, n) <==> AsItems(es) == Items(n)
  {
    var us := ts[..|ts| - 1];
    hide Stands;
    EventsView(us, es, strs);
    assert ts == us + [End];
    ViewAppend(us, [End], strs);
    assert View([End], strs) == [] by { assert [End][1..] == []; }
  }

  // ----- the calls that write a tree -----

  function PropEvents(ps: seq<NodeProp>): seq<Event> {
    if ps == [] then [] else [Event.Property(ps[0].name, ps[0].value)] + PropEvents(ps[1..])
  }

  function KidEvents(kids: seq<Node>): seq<Event>
    decreases kids
  {
    if kids == [] then [] else Events(kids[0]) + KidEvents(kids[1..])
  }

  /** The calls for a node: its properties, then its subnodes. */
  function Events(n: Node): seq<Event>
    decreases n
  {
    [Begin(n.name)] + PropEvents(n.props) + KidEvents(n.kids) + [Event.Finish]
  }

  lemma ItemsConcat(a: seq<Event>, b: seq<Event>)
    ensures AsItems(a + b) == AsItems(a) + AsItems(b)
  {
  }

  lemma {:induction false} PropEventsItems(ps: seq<NodeProp>)
    ensures AsItems(PropEvents(ps)) == PropItems(ps)
  {
    if ps != [] {
      PropEventsItems(ps[1..]);
      ItemsConcat([Event.Property(ps[0].name, ps[0].value)], PropEvents(ps[1..]));
    }
  }

  lemma {:induction false} KidEventsItems(kids: seq<Node>)
    ensures AsItems(KidEvents(kids)) == KidItems(kids)
    decreases kids
  {
    hide AsItems, Events, Items;
    if kids != [] {
      EventsItems(kids[0]);
      KidEventsItems(kids[1..]);
      ItemsConcat(Events(kids[0]), KidEvents(kids[1..]));
    } else {
      NoItems();
    }
  }

  lemma NoItems()
    ensures AsItems([]) == []
  {
  }

  lemma {:induction false} EventsItems(n: Node)
    ensures AsItems(Events(n)) == Items(n)
    decreases n
  {
    PropEventsItems(n.props);
    KidEventsItems(n.kids);
    var a, b, c, d := [Begin(n.name)], PropEvents(n.props), KidEvents(n.kids), [Event.Finish];
    ItemsConcat(a, b);
    ItemsConcat(a + b, c);
    ItemsConcat(a + b + c, d);
    assert AsItems(a) == [Open(n.name)] && AsItems(d) == [Close];
  }

  /** Names without zero bytes, and sizes that an int can hold. */
  ghost predicate Writable(n: Node)
    decreases n
  {
    && NoNul(n.name)
    && (forall i :: 0 <= i < |n.props| ==>
         NoNul(n.props[i].name) && |n.props[i].name| < INT_MAX && |n.props[i].value| <= INT_MAX)
    && forall i :: 0 <= i < |n.kids| ==> Writable(n.kids[i])
  }

  /** The properties of a node, one after the other. */
  method WriteProps(w: Writer, ps: seq<NodeProp>) returns (err: int, astray: bool)
    requires w.Building()
    requires forall i :: 0 <= i < |ps| ==> NoNul(ps[i].name) && |ps[i].name| < INT_MAX && |ps[i].value| <= INT_MAX
    modifies w, w.buf
    ensures !astray ==> w.Building() && w.totalsize == old(w.totalsize) && (err == 0 || err == -ERR_NOSPACE)
    ensures !astray && err == 0 ==> w.log == old(w.log) + PropEvents(ps)
  {
    hide *;
    ghost var log := w.log;
    err, astray := 0, false;
    PropEventsNone(ps);
    for i := 0 to |ps|
      invariant w.Building() && w.totalsize == old(w.totalsize) && err == 0 && !astray
      invariant w.log == log + PropEvents(ps[..i])
    {
      PropEventsStep(ps, i);
      Grouped(log, PropEvents(ps[..i]), [Event.Property(ps[i].name, ps[i].value)]);
      err, astray := w.Property(ps[i].name, ps[i].value);
      if astray || err != 0 {
        return;
      }
    }
    assert ps[..|ps|] == ps;
  }

  /** A tree is written by the calls for its root. */
  method WriteNode(w: Writer, n: Node) returns (err: int, astray: bool)
    requires w.Building() && Writable(n)
    modifies w, w.buf
    ensures !astray ==> w.Building() && w.totalsize == old(w.totalsize) && (err == 0 || err == -ERR_NOSPACE)
    ensures !astray && err == 0 ==> w.log == old(w.log) + Events(n)
    decreases n, 1
  {
    hide *;
    WritableIs(n);
    ghost var log := w.log;
    err := w.BeginNode(n.name);
    if err != 0 {
      return err, false;
    }
    err, astray := WriteProps(w, n.props);
    if astray || err != 0 {
      return;
    }
    err, astray := WriteKids(w, n.kids);
    if astray || err != 0 {
      return;
    }
    err := w.EndNode();
    EventsAfter(log, n);
  }

  /** The subnodes of a node, one after the other. */
  method WriteKids(w: Writer, kids: seq<Node>) returns (err: int, astray: bool)
    requires w.Building() && forall i :: 0 <= i < |kids| ==> Writable(kids[i])
    modifies w, w.buf
    ensures !astray ==> w.Building() && w.totalsize == old(w.totalsize) && (err == 0 || err == -ERR_NOSPACE)
    ensures !astray && err == 0 ==> w.log == old(w.log) + KidEvents(kids)
    decreases kids, 0
  {
    hide *;
    ghost var log := w.log;
    err, astray := 0, false;
    KidEventsNone(kids);
    for i := 0 to |kids|
      invariant w.Building() && w.totalsize == old(w.totalsize) && err == 0 && !astray
      invariant w.log == log + KidEvents(kids[..i])
    {
      KidEventsStep(kids, i);
      Grouped(log, KidEvents(kids[..i]), Events(kids[i]));
      err, astray := WriteNode(w, kids[i]);
      if astray || err != 0 {
        return;
      }
    }
    assert kids[..|kids|] == kids;
  }

  lemma EventsAfter(log: seq<Event>, n: Node)
    ensures log + [Begin(n.name)] + PropEvents(n.props) + KidEvents(n.kids) + [Event.Finish] == log + Events(n)
  {
    hide PropEvents, KidEvents;
    assert Events(n) == [Begin(n.name)] + PropEvents(n.props) + KidEvents(n.kids) + [Event.Finish];
  }

  lemma WritableIs(n: Node)
    requires Writable(n)
    ensures NoNul(n.name) && forall i :: 0 <= i < |n.kids| ==> Writable(n.kids[i])
    ensures forall i :: 0 <= i < |n.props| ==>
      NoNul(n.props[i].name) && |n.props[i].name| < INT_MAX && |n.props[i].value| <= INT_MAX
  {
  }

  lemma PropEventsNone(ps: seq<NodeProp>)
    ensures PropEvents(ps[..0]) == []
  {
  }

  lemma {:induction false} PropEventsStep(ps: seq<NodeProp>, i: nat)
    requires i < |ps|
    ensures PropEvents(ps[..i + 1]) == PropEvents(ps[..i]) + [Event.Property(ps[i].name, ps[i].value)]
  {
    if i > 0 {
      PropEventsStep(ps[1..], i - 1);
      assert ps[..i + 1][1..] == ps[1..][..i] && ps[..i][1..] == ps[1..][..i - 1];
    } else {
      assert ps[..1][1..] == [];
    }
  }

  lemma KidEventsNone(kids: seq<Node>)
    ensures KidEvents(kids[..0]) == []
  {
  }

  lemma {:induction false} KidEventsStep(kids: seq<Node>, i: nat)
    requires i < |kids|
    ensures KidEvents(kids[..i + 1]) == KidEvents(kids[..i]) + Events(kids[i])
    decreases i
  {
    hide Events;
    if i > 0 {
      KidEventsStep(kids[1..], i - 1);
      assert kids[..i + 1][1..] == kids[1..][..i] && kids[..i][1..] == kids[1..][..i - 1];
    } else {
      assert kids[..1][1..] == [];
    }
  }

  // ----- the round trip -----

  /** A finished writer's buffer as a tree that can be read and edited. */
  method Finished(w: Writer, ghost n: Node) returns (b: Blob)
    requires w.Complete() && AsItems(w.log) == Items(n)
    ensures b.Valid() && b.root == n && b.buf == w.buf && b.IsNode(0, [])
  {
    hide *;
    b := new Blob(w.buf, w.totalsize, w.off_struct, w.size_struct, w.off_strings, w.size_strings, w.toks, n);
    w.CompleteParts();
    SameBlocks(w, b);
    FinishedIs(b.toks, w.log, b.Strings(), n);
    b.StillValid();
    RootFirst(b, w.log);
  }

  lemma SameBlocks(w: Writer, b: Blob)
    requires w.Complete() && b.buf == w.buf && b.totalsize == w.totalsize && b.off_struct == w.off_struct && b.size_struct == w.size_struct
    requires b.off_strings == w.off_strings && b.size_strings == w.size_strings
    ensures b.Laid() && b.off_struct + b.size_struct <= b.buf.Length && b.off_strings + b.size_strings <= b.buf.Length
    ensures b.Struct() == w.Block(w.off_struct, w.size_struct) && b.Strings() == w.Block(w.off_strings, w.size_strings)
  {
    hide WritesAll, StandsAll;
  }

  lemma RootFirst(b: Blob, es: seq<Event>)
    requires b.Valid() && StandsAll(b.toks[..|b.toks| - 1], es, b.Strings(), true) && AsItems(es) == Items(b.root)
    ensures b.IsNode(0, [])
  {
    assert Items(b.root)[0] == Open(b.root.name) && AsItem(es[0]) == AsItems(es)[0];
    assert Stands(b.toks[..|b.toks| - 1][0], es[0], b.Strings(), true);
    assert NodeAt(b.toks, b.Strings(), b.root, [], 0);
    b.IsNodeNow(0, [], 0);
  }

  /** Writing a tree from the start, and what is then in the buffer. */
  method WriteTree(buf: array<byte>, bufsize: nat, dedup: bool, n: Node) returns (err: int, astray: bool, b: Blob?)
    requires RESERVE_MAP <= bufsize <= buf.Length <= INT_MAX && Writable(n)
    modifies buf
    ensures !astray ==> err == 0 || err == -ERR_NOSPACE
    ensures !astray && err == 0 ==> b != null && b.Valid() && b.root == n && b.buf == buf && b.IsNode(0, [])
  {
    hide *;
    b, astray := null, false;
    var w := new Writer(buf, bufsize, dedup);
    err := w.FinishReservemap();
    if err != 0 { return; }
    err, astray := WriteNode(w, n);
    if astray || err != 0 { return; }
    err := w.Finish();
    if err != 0 { return; }
    EventsItems(n);
    assert [] + Events(n) == Events(n);
    b := Finished(w, n);
  }
}
