/** The symbols of a configuration, what each one's value is computed from, and
    the search for symbols that depend on themselves. */
module KconfigGraph {
  import opened KconfigExpr

  datatype PropKind = PUnknown | PPrompt | PComment | PMenu | PDefault | PChoice | PSelect | PImply | PRange | PSymbol

  /** text: the property has a prompt text. */
  datatype Property = Property(kind: PropKind, text: bool, visible: MaybeExpr, value: MaybeExpr)

  datatype Decl = Decl(dirDep: MaybeExpr, revDep: MaybeExpr, implied: MaybeExpr, props: seq<Property>)

  /** Every symbol that is mentioned is declared, constants and undefined ones
      with nothing. */
  type Config = map<Symbol, Decl>

  function Leaves(e: Expr): set<Symbol> {
    match e
    case Sym(s) => {s}
    case Not(x) => Leaves(x)
    case Bin(_, l, r) => Leaves(l) + Leaves(r)
    case Cmp(_, a, b) => {a, b}
  }

  function LeavesOf(e: MaybeExpr): set<Symbol> {
    if e.Null? then {} else Leaves(e.e)
  }

  function PropLeaves(p: Property): set<Symbol> {
    if p.kind.PChoice? || p.kind.PSelect? || p.kind.PImply? then {}
    else LeavesOf(p.visible) + if p.kind.PDefault? then LeavesOf(p.value) else {}
  }

  function PropsLeaves(ps: seq<Property>): set<Symbol> {
    if ps == [] then {} else PropsLeaves(ps[..|ps| - 1]) + PropLeaves(ps[|ps| - 1])
  }

  /** What a symbol's value is computed from: its direct, reverse and weak
      reverse dependencies, the conditions of its properties and its defaults. */
  function Needs(d: Decl): set<Symbol> {
    LeavesOf(d.dirDep) + LeavesOf(d.revDep) + LeavesOf(d.implied) + PropsLeaves(d.props)
  }

  predicate Edge(g: Config, s: Symbol, t: Symbol) { s in g && t in Needs(g[s]) }

  ghost predicate Closed(g: Config) {
    forall s, t :: Edge(g, s, t) ==> t in g
  }

  // ----- cycles -----

  ghost predicate Path(g: Config, p: seq<Symbol>) {
    forall i :: 0 <= i < |p| - 1 ==> Edge(g, p[i], p[i + 1])
  }

  ghost predicate Cycle(g: Config, p: seq<Symbol>) {
    |p| >= 2 && p[0] == p[|p| - 1] && Path(g, p)
  }

  ghost predicate OnCycle(g: Config, s: Symbol) {
    exists p :: Cycle(g, p) && p[0] == s
  }

  ghost predicate Cyclic(g: Config) {
    exists p :: Cycle(g, p)
  }

  /** An order in which every symbol comes after all it needs. */
  ghost predicate Ordered(g: Config, order: seq<Symbol>) {
    forall i, t :: 0 <= i < |order| && Edge(g, order[i], t) ==> t in order[..i]
  }

  function Place(order: seq<Symbol>, s: Symbol): (k: nat)
    requires s in order
    ensures k < |order| && order[k] == s && s !in order[..k]
  {
    if order[0] == s then 0 else 1 + Place(order[1..], s)
  }

  lemma {:induction false} PlaceFirst(order: seq<Symbol>, j: nat)
    requires j < |order|
    ensures Place(order, order[j]) <= j
  {
    if order[0] != order[j] { PlaceFirst(order[1..], j - 1); }
  }

  /** Needs come at lower places. */
  lemma PlaceFalls(g: Config, order: seq<Symbol>, s: Symbol, t: Symbol)
    requires Ordered(g, order) && s in order && Edge(g, s, t)
    ensures t in order && Place(order, t) < Place(order, s)
  {
    var k := Place(order, s);
    assert t in order[..k];
    var j :| 0 <= j < k && order[j] == t;
    PlaceFirst(order, j);
  }

  lemma {:induction false} PathFalls(g: Config, order: seq<Symbol>, p: seq<Symbol>, i: nat)
    requires Ordered(g, order) && Path(g, p) && i < |p| && p[0] in order
    ensures p[i] in order && Place(order, p[i]) + i <= Place(order, p[0])
  {
    if i > 0 {
      PathFalls(g, order, p, i - 1);
      assert Edge(g, p[i - 1], p[i - 1 + 1]);
      PlaceFalls(g, order, p[i - 1], p[i]);
    }
  }

  /** Where there is such an order there is no cycle. */
  lemma OrderedAcyclic(g: Config, order: seq<Symbol>)
    requires Closed(g) && Ordered(g, order) && forall s :: s in g ==> s in order
    ensures !Cyclic(g)
  {
    forall p | Cycle(g, p) ensures false {
      assert Edge(g, p[0], p[0 + 1]);
      PathFalls(g, order, p, |p| - 1);
    }
  }

  // ----- the search -----

  datatype Found = None | Loop(s: Symbol)

  ghost predicate Grown(before: seq<Symbol>, after: seq<Symbol>) {
    forall t :: t in before ==> t in after
  }

  lemma Pushed(g: Config, stack: seq<Symbol>, s: Symbol)
    requires Path(g, stack) && (stack != [] ==> Edge(g, stack[|stack| - 1], s))
    ensures Path(g, stack + [s])
    ensures (stack + [s])[..|stack + [s]| - 1] == stack
  {
    var more := stack + [s];
    forall i | 0 <= i < |more| - 1 ensures Edge(g, more[i], more[i + 1]) {
      if i + 1 < |more| - 1 { assert Edge(g, stack[i], stack[i + 1]); }
    }
  }

  lemma NeedsMost(d: Decl)
    ensures forall t :: t in LeavesOf(d.dirDep) || t in LeavesOf(d.revDep) || t in LeavesOf(d.implied) || t in PropsLeaves(d.props) <==> t in Needs(d)
  {
  }

  class Checker {
    const g: Config
    /** SYMBOL_CHECK, SYMBOL_CHECKED and check_top's list, bottom first. */
    var check: set<Symbol>
    var checked: set<Symbol>
    var stack: seq<Symbol>
    /** The symbols found sound, in the order they were left; and whether some
        symbol has not been. */
    ghost var finished: seq<Symbol>
    ghost var failed: bool

    ghost predicate Valid()
      reads this
    {
      && Closed(g) && check <= checked <= g.Keys
      && (forall s :: s in stack ==> s in check)
      && Path(g, stack)
      && (!failed ==> Ordered(g, finished) && forall s :: s in finished <==> s in checked && s !in check)
      && (failed ==> Cyclic(g))
    }

    constructor (config: Config)
      requires Closed(config)
      ensures Valid() && g == config && check == checked == {} && stack == [] && !failed
    {
      g, check, checked, stack, finished, failed := config, {}, {}, [], [], false;
    }

    /** sym_check_deps */
    method CheckDeps(s: Symbol) returns (r: Found)
      requires Valid() && s in g && (forall t :: t in check ==> t in stack) && (stack != [] ==> Edge(g, stack[|stack| - 1], s))
      modifies this
      ensures Valid() && check == old(check) && stack == old(stack) && old(checked) <= checked
      ensures r.None? && !failed ==> s in finished
      ensures r.None? ==> failed == old(failed) && Grown(old(finished), finished)
      ensures r.Loop? ==> failed && OnCycle(g, r.s)
      decreases g.Keys - checked, 0
    {
      if s in check {
        BackEdge(g, stack, s);
        failed := true;
        return Loop(s);
      }
      if s in checked {
        return None;
      }
      check, checked := check + {s}, checked + {s};
      r := CheckSymDeps(s);
      check := check - {s};
      if r.None? {
        OrderedMore(g, finished, s, failed);
        finished := finished + [s];
      }
    }

    /** sym_check_sym_deps */
    method CheckSymDeps(s: Symbol) returns (r: Found)
      requires Valid() && s in check && s !in stack && (forall t :: t in check ==> t in stack || t == s)
      requires stack != [] ==> Edge(g, stack[|stack| - 1], s)
      requires !failed ==> s !in finished
      modifies this
      ensures Valid() && check == old(check) && stack == old(stack) && old(checked) <= checked
      ensures r.None? && !failed ==> forall t :: Edge(g, s, t) ==> t in finished
      ensures r.None? ==> failed == old(failed) && Grown(old(finished), finished)
      ensures r.Loop? ==> failed && OnCycle(g, r.s)
      decreases g.Keys - checked, 5
    {
      Pushed(g, stack, s);
      stack := stack + [s];
      r := CheckSymParts(s);
      stack := stack[..|stack| - 1];
    }

    /** The body of sym_check_sym_deps, with the symbol on the stack. */
    method CheckSymParts(s: Symbol) returns (r: Found)
      requires Valid() && stack != [] && stack[|stack| - 1] == s && s in g
      requires forall t :: t in check ==> t in stack
      modifies this
      ensures Valid() && check == old(check) && stack == old(stack) && old(checked) <= checked
      ensures r.None? && !failed ==> forall t :: t in Needs(g[s]) ==> t in finished
      ensures r.None? ==> failed == old(failed) && Grown(old(finished), finished)
      ensures r.Loop? ==> failed && OnCycle(g, r.s)
      decreases g.Keys - checked, 4
    {
      var d := g[s];
      NeedsMost(d);
      r := CheckExprDeps(d.dirDep);
      if r.None? {
        r := CheckExprDeps(d.revDep);
      }
      if r.None? {
        r := CheckExprDeps(d.implied);
      }
      if r.None? {
        r := CheckProps(s, d.props);
      }
    }

    /** The loop over the symbol's properties. */
    method CheckProps(s: Symbol, props: seq<Property>) returns (r: Found)
      requires Valid() && stack != [] && stack[|stack| - 1] == s && s in g && PropsLeaves(props) <= Needs(g[s])
      requires forall t :: t in check ==> t in stack
      modifies this
      ensures Valid() && check == old(check) && stack == old(stack) && old(checked) <= checked
      ensures r.None? && !failed ==> forall t :: t in PropsLeaves(props) ==> t in finished
      ensures r.None? ==> failed == old(failed) && Grown(old(finished), finished)
      ensures r.Loop? ==> failed && OnCycle(g, r.s)
      decreases g.Keys - checked, 3
    {
      r := None;
      for i := 0 to |props|
        invariant Valid() && check == old(check) && stack == old(stack) && old(checked) <= checked
        invariant r.None? && failed == old(failed) && Grown(old(finished), finished)
        invariant !failed ==> forall t :: t in PropsLeaves(props[..i]) ==> t in finished
      {
        PropsAt(props, i);
        var p := props[i];
        if !(p.kind.PChoice? || p.kind.PSelect? || p.kind.PImply?) {
          r := CheckExprDeps(p.visible);
          if r.Loop? {
            return;
          }
          if p.kind.PDefault? {
            r := CheckExprDeps(p.value);
            if r.Loop? {
              return;
            }
          }
        }
      }
      assert props[..|props|] == props;
    }

    /** sym_check_expr_deps, for no expression too */
    method CheckExprDeps(e: MaybeExpr) returns (r: Found)
      requires Valid() && stack != [] && stack[|stack| - 1] in g && LeavesOf(e) <= Needs(g[stack[|stack| - 1]])
      requires forall t :: t in check ==> t in stack
      modifies this
      ensures Valid() && check == old(check) && stack == old(stack) && old(checked) <= checked
      ensures r.None? && !failed ==> forall t :: t in LeavesOf(e) ==> t in finished
      ensures r.None? ==> failed == old(failed) && Grown(old(finished), finished)
      ensures r.Loop? ==> failed && OnCycle(g, r.s)
      decreases g.Keys - checked, 2
    {
      r := None;
      if e.Some? {
        r := CheckExpr(e.e);
      }
    }

    /** sym_check_expr_deps */
    method CheckExpr(e: Expr) returns (r: Found)
      requires Valid() && stack != [] && stack[|stack| - 1] in g && Leaves(e) <= Needs(g[stack[|stack| - 1]])
      requires forall t :: t in check ==> t in stack
      modifies this
      ensures Valid() && check == old(check) && stack == old(stack) && old(checked) <= checked
      ensures r.None? && !failed ==> forall t :: t in Leaves(e) ==> t in finished
      ensures r.None? ==> failed == old(failed) && Grown(old(finished), finished)
      ensures r.Loop? ==> failed && OnCycle(g, r.s)
      decreases g.Keys - checked, 1, e
    {
      match e
      case Sym(s) =>
        assert s in Leaves(e) && Edge(g, stack[|stack| - 1], s);
        r := CheckDeps(s);
      case Not(x) =>
        r := CheckExpr(x);
      case Bin(_, l, x) =>
        r := CheckExpr(l);
        if r.None? {
          r := CheckExpr(x);
        }
      case Cmp(_, a, b) =>
        assert a in Leaves(e) && Edge(g, stack[|stack| - 1], a);
        assert b in Leaves(e) && Edge(g, stack[|stack| - 1], b);
        r := CheckDeps(a);
        if r.None? {
          r := CheckDeps(b);
        }
    }

    /** The loop of conf_parse over all symbols, in the order of the hash table.
        The dependencies have no cycle if and only if every call finds none. */
    method CheckAll(symbols: seq<Symbol>) returns (errors: nat)
      requires Valid() && check == checked == {} && stack == [] && !failed
      requires forall s :: s in symbols <==> s in g
      modifies this
      ensures errors == 0 <==> !Cyclic(g)
      ensures errors == 0 ==> Ordered(g, finished) && forall s :: s in finished <==> s in g
    {
      errors := 0;
      for i := 0 to |symbols|
        invariant Valid() && check == {} && stack == [] && (errors == 0 <==> !failed)
        invariant !failed ==> forall s :: s in symbols[..i] ==> s in finished
      {
        assert symbols[i] in symbols;
        var r := CheckDeps(symbols[i]);
        if r.Loop? {
          errors := errors + 1;
        }
        assert symbols[..i + 1] == symbols[..i] + [symbols[i]];
      }
      assert symbols[..|symbols|] == symbols;
      if !failed {
        OrderedAcyclic(g, finished);
      }
    }
  }

  lemma PropsAt(props: seq<Property>, i: nat)
    requires i < |props|
    ensures PropsLeaves(props[..i + 1]) == PropsLeaves(props[..i]) + PropLeaves(props[i])
    ensures PropLeaves(props[i]) <= PropsLeaves(props)
  {
    assert props[..i + 1][..i] == props[..i];
    PropsWithin(props, i);
  }

  lemma {:induction false} PropsWithin(props: seq<Property>, i: nat)
    requires i < |props|
    ensures PropLeaves(props[i]) <= PropsLeaves(props)
  {
    if i < |props| - 1 { PropsWithin(props[..|props| - 1], i); }
  }

  /** A symbol reached from the top of the stack that is already on it closes a
      cycle. */
  lemma BackEdge(g: Config, stack: seq<Symbol>, s: Symbol)
    requires Path(g, stack) && s in stack && Edge(g, stack[|stack| - 1], s)
    ensures OnCycle(g, s) && Cyclic(g)
  {
    var k := Place(stack, s);
    var p := stack[k..] + [s];
    forall i | 0 <= i < |p| - 1 ensures Edge(g, p[i], p[i + 1]) {
      if i + 1 < |p| - 1 { assert Edge(g, stack[k + i], stack[k + i + 1]); }
    }
    assert Cycle(g, p);
  }

  lemma OrderedMore(g: Config, order: seq<Symbol>, s: Symbol, failed: bool)
    requires !failed ==> Ordered(g, order) && forall t :: Edge(g, s, t) ==> t in order
    ensures !failed ==> Ordered(g, order + [s])
  {
    if !failed {
      var more := order + [s];
      forall i, t | 0 <= i < |more| && Edge(g, more[i], t) ensures t in more[..i] {
        assert more[..i] == order[..i];
      }
    }
  }
}
