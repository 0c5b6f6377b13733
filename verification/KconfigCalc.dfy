/** Computing the values of symbols in place, by recursion over what they need,
    and setting them. */
module KconfigCalc {
  import opened KconfigExpr
  import opened KconfigGraph
  import opened KconfigValue

  /** What is stored for t is what t should be. */
  ghost predicate Correct(c: Ctx, t: Symbol, stored: Calc) {
    if TwoOrThree(t) then t in c.g && t in c.order && stored == Values(c, t) else stored.curr == ConstTri(t)
  }

  /** The symbols before place k that count as computed are computed right. */
  ghost predicate Right(c: Ctx, k: nat, valid: set<Symbol>, vals: map<Symbol, Calc>) {
    forall t :: t in valid && t in c.order && Place(c.order, t) < k ==> t in vals && Correct(c, t, vals[t])
  }

  /** More has been computed, all of it right and before place k; nothing that
      counted as computed has changed. */
  ghost predicate More(c: Ctx, k: nat, valid: set<Symbol>, vals: map<Symbol, Calc>, valid': set<Symbol>, vals': map<Symbol, Calc>) {
    && valid <= valid' && vals.Keys == vals'.Keys
    && (forall t :: t in valid && t in vals ==> vals'[t] == vals[t])
    && (forall t :: t in valid' && t !in valid ==> t in vals && t in c.order && Place(c.order, t) < k && Correct(c, t, vals'[t]))
  }

  lemma MoreWider(c: Ctx, j: nat, k: nat, v0: set<Symbol>, m0: map<Symbol, Calc>, v1: set<Symbol>, m1: map<Symbol, Calc>)
    requires More(c, j, v0, m0, v1, m1) && j <= k
    ensures More(c, k, v0, m0, v1, m1)
  {
  }

  lemma RightMore(c: Ctx, k: nat, v0: set<Symbol>, m0: map<Symbol, Calc>, v1: set<Symbol>, m1: map<Symbol, Calc>)
    requires Right(c, k, v0, m0) && More(c, k, v0, m0, v1, m1) && v0 <= m0.Keys
    ensures Right(c, k, v1, m1)
  {
  }

  lemma RightStore(c: Ctx, k: nat, v: set<Symbol>, m: map<Symbol, Calc>, s: Symbol, x: Calc)
    requires Right(c, k, v, m) && s in c.order && k <= Place(c.order, s)
    ensures Right(c, k, v, m[s := x])
  {
  }

  /** Computing s: what is done for the symbols it needs, and then its own values
      stored, once on the way and once at the end. */
  lemma MoreStored(c: Ctx, s: Symbol, v0: set<Symbol>, m0: map<Symbol, Calc>, v1: set<Symbol>, m1: map<Symbol, Calc>, x: Calc,
                   v2: set<Symbol>, m2: map<Symbol, Calc>, y: Calc)
    requires s in c.order && s in m0 && s !in v0 && v0 <= m0.Keys && Correct(c, s, y)
    requires More(c, Place(c.order, s), v0 + {s}, m0, v1, m1) && More(c, Place(c.order, s), v1, m1[s := x], v2, m2)
    ensures More(c, Place(c.order, s) + 1, v0, m0, v2, m2[s := y]) && m1[s] == m0[s]
    ensures s in v2 && m2.Keys == m0.Keys
  {
    forall t | t in v0 ensures m2[s := y][t] == m0[t] {
      assert m1[t] == m0[t];
    }
    forall t | t in v2 && t !in v0
      ensures t in m0 && t in c.order && Place(c.order, t) < Place(c.order, s) + 1 && Correct(c, t, m2[s := y][t])
    {
      if t != s && t in v1 {
        assert m2[t] == m1[t];
      }
    }
  }

  // ----- tristates in comparisons -----

  /** e compares no tristate symbol. */
  predicate NoTristates(e: Expr) {
    match e
    case Sym(_) => true
    case Not(x) => NoTristates(x)
    case Bin(_, l, r) => NoTristates(l) && NoTristates(r)
    case Cmp(_, a, b) => !Type(a).Tristate? && !Type(b).Tristate?
  }

  predicate NoTristatesIn(e: MaybeExpr) { e.Some? ==> NoTristates(e.e) }

  predicate PlainDecl(d: Decl) {
    && NoTristatesIn(d.dirDep) && NoTristatesIn(d.revDep) && NoTristatesIn(d.implied)
    && forall i :: 0 <= i < |d.props| ==> NoTristatesIn(d.props[i].visible) && NoTristatesIn(d.props[i].value)
  }

  /** Whether modules are on matters to a comparison only for tristates. */
  lemma CompareSame(a: Symbol, b: Symbol, e: Env, f: Env)
    requires e.tri(a) == f.tri(a) && e.tri(b) == f.tri(b) && e.text == f.text && e.parse == f.parse
    requires e.modules == f.modules
          || (!Type(a).Tristate? && !Type(b).Tristate? && (Type(a).Boolean? ==> e.tri(a) != 1) && (Type(b).Boolean? ==> e.tri(b) != 1))
    ensures Compare(a, b, e) == Compare(a, b, f)
  {
    assert Text(a, e) == Text(a, f) && Text(b, e) == Text(b, f);
  }

  lemma BoolNeverM(c: Ctx, k: nat, s: Symbol)
    requires Type(s).Boolean?
    ensures EnvBelow(c, k).tri(s) != 1
  {
  }

  /** The fields of the engine at one moment. */
  datatype Snap = Snap(vals: map<Symbol, Calc>, valid: set<Symbol>, user: map<Symbol, Tri>, modulesVal: Tri)

  /** Setting a value that stands changes no symbol's value. */
  lemma SetSameValues(c: Ctx, s: Symbol, val: Tri)
    requires Sane(c) && s in c.g && s in c.order && TwoOrThree(s) && Values(c, s).curr == val
    requires !AbovePrompt(Values(c, s), UserOf(c.user, s), val)
    ensures forall t :: t in c.g && t in c.order ==> Values(c.(user := c.user[s := val]), t) == Values(c, t)
  {
    AcceptedValue(c, s, val);
    SameBelow(c, val, s);
    SameBounds(c.g[s], Type(s), c.mods, UserOf(c.user, s), Set(val), EnvBelow(c, Place(c.order, s)));
    forall t | t in c.g && t in c.order ensures Values(c.(user := c.user[s := val]), t) == Values(c, t) {
      SameOn(c, val, s, c.g.Keys, t);
    }
  }

  lemma SameBounds(d: Decl, kind: SymbolType, mods: bool, u: UserValue, w: UserValue, env: Env)
    ensures Compute(d, kind, mods, u, env).(curr := 0) == Compute(d, kind, mods, w, env).(curr := 0)
  {
  }

  class Engine {
    const g: Config
    const modules: Symbol
    const text: Symbol -> string
    const parse: Reader
    ghost const order: seq<Symbol>
    /** modules_sym and all it needs. */
    ghost const cone: set<Symbol>

    /** visible, dir_dep.tri, rev_dep.tri, implied.tri and curr.tri of every
        symbol; SYMBOL_VALID; the user's values with SYMBOL_DEF_USER; modules_val. */
    var vals: map<Symbol, Calc>
    var valid: set<Symbol>
    var user: map<Symbol, Tri>
    var modulesVal: Tri

    ghost function State(): Snap
      reads this
    {
      Snap(vals, valid, user, modulesVal)
    }

    ghost function CtxOf(st: Snap): Ctx {
      Ctx(g, order, st.user, st.modulesVal != 0, text, parse)
    }

    /** An acyclic configuration, where what MODULES needs compares no tristate
        symbols. */
    ghost predicate Fixed() {
      && Closed(g) && Ordered(g, order) && (forall s :: s in g ==> s in order)
      && (forall s, i :: s in g && 0 <= i < |g[s].props| ==> Parsed(g[s].props[i]))
      && modules in cone && cone <= g.Keys && ClosedSet(g, cone)
      && forall s :: s in cone ==> PlainDecl(g[s])
    }

    /** Computing may go on below place k: for MODULES itself (early), or with
        MODULES known. */
    ghost predicate Going(st: Snap, k: nat, early: bool) {
      && Fixed() && st.vals.Keys == g.Keys && st.valid <= g.Keys
      && (forall t :: t in st.vals && !TwoOrThree(t) ==> st.vals[t].curr == ConstTri(t))
      && Right(CtxOf(st), k, st.valid, st.vals)
      && if early then modules in st.valid || k <= Place(order, modules)
         else modules in st.valid && st.vals[modules].curr == st.modulesVal
    }

    /** s may be computed. */
    ghost predicate May(st: Snap, s: Symbol, early: bool) {
      && s in g && s in order && Going(st, Place(order, s), early)
      && (s in st.valid ==> s in st.vals && Correct(CtxOf(st), s, st.vals[s]))
      && (early ==> s in cone)
    }

    /** From before to after, nothing but the values of more symbols has changed. */
    ghost predicate Went(before: Snap, after: Snap, k: nat) {
      && after.user == before.user && after.modulesVal == before.modulesVal
      && (forall t :: t in after.vals && !TwoOrThree(t) ==> after.vals[t].curr == ConstTri(t))
      && More(CtxOf(before), k, before.valid, before.vals, after.valid, after.vals)
    }

    /** s has been computed; for MODULES that may change modules_val. */
    ghost predicate Did(before: Snap, after: Snap, s: Symbol) {
      && s in order && s in after.valid && s in before.vals && s in after.vals && Correct(CtxOf(before), s, after.vals[s])
      && after.user == before.user
      && (forall t :: t in after.vals && !TwoOrThree(t) ==> after.vals[t].curr == ConstTri(t))
      && More(CtxOf(before), Place(order, s) + 1, before.valid, before.vals, after.valid, after.vals)
      && after.modulesVal == if s == modules && s !in before.valid && after.vals[s].curr != before.vals[s].curr
                             then after.vals[s].curr else before.modulesVal
    }

    ghost predicate Within(ls: set<Symbol>, k: nat, early: bool) {
      forall t :: t in ls ==> t in g && t in order && Place(order, t) < k && (early ==> t in cone)
    }

    lemma LeafBefore(st: Snap, s: Symbol, ls: set<Symbol>, k: nat, early: bool)
      requires Going(st, k, early) && Within(ls, k, early) && s in ls
      ensures s in g && s in order && May(st, s, early) && Place(order, s) < k
    {
    }

    lemma LeafAfter(before: Snap, after: Snap, s: Symbol, ls: set<Symbol>, k: nat, early: bool)
      requires Going(before, k, early) && Within(ls, k, early) && s in ls && Did(before, after, s)
      ensures Going(after, k, early) && Went(before, after, k)
      ensures s in after.vals && after.vals[s].curr == EnvBelow(CtxOf(before), k).tri(s)
    {
      MoreWider(CtxOf(before), Place(order, s) + 1, k, before.valid, before.vals, after.valid, after.vals);
      RightMore(CtxOf(before), k, before.valid, before.vals, after.valid, after.vals);
    }

    lemma WentThen(st0: Snap, st1: Snap, st2: Snap, k: nat)
      requires Went(st0, st1, k) && Went(st1, st2, k)
      ensures Went(st0, st2, k) && CtxOf(st1) == CtxOf(st0) && CtxOf(st2) == CtxOf(st0)
    {
    }

    lemma WithinPart(ls: set<Symbol>, ms: set<Symbol>, k: nat, early: bool)
      requires Within(ms, k, early) && ls <= ms
      ensures Within(ls, k, early)
    {
    }

    /** The assignment as it now stands in the symbols. */
    function Now(): Env
      reads this`vals
    {
      var m := vals;
      Env((s: Symbol) => if s in m then m[s].curr else 0, text, modules in m && m[modules].curr != 0, parse)
    }

    lemma LeavesIn(e: Expr)
      ensures e.Sym? ==> e.s in Leaves(e)
      ensures e.Not? ==> Leaves(e.e) <= Leaves(e)
      ensures e.Bin? ==> Leaves(e.l) <= Leaves(e) && Leaves(e.r) <= Leaves(e)
      ensures e.Cmp? ==> e.a in Leaves(e) && e.b in Leaves(e)
    {
    }

    lemma EvalIs(e: Expr, env: Env)
      ensures e.Sym? ==> Eval(e, env) == env.tri(e.s)
      ensures e.Not? ==> Eval(e, env) == 2 - Eval(e.e, env)
      ensures e.Bin? ==> Eval(e, env) == Apply(e.op, Eval(e.l, env), Eval(e.r, env))
      ensures e.Cmp? ==> Eval(e, env) == if Holds(e.rel, Compare(e.a, e.b, env)) then 2 else 0
    {
    }

    lemma PlainIs(e: Expr)
      requires NoTristates(e)
      ensures e.Not? ==> NoTristates(e.e)
      ensures e.Bin? ==> NoTristates(e.l) && NoTristates(e.r)
      ensures e.Cmp? ==> !Type(e.a).Tristate? && !Type(e.b).Tristate?
    {
    }

    lemma ComparesNow(before: Snap, st1: Snap, e: Expr, k: nat, early: bool)
      requires e.Cmp? && Going(before, k, early) && Within(Leaves(e), k, early) && (early ==> NoTristates(e))
      requires Going(State(), k, early) && Went(before, st1, k) && Went(st1, State(), k)
      requires e.a in st1.valid && e.a in st1.vals && st1.vals[e.a].curr == EnvBelow(CtxOf(before), k).tri(e.a)
      requires e.b in vals && vals[e.b].curr == EnvBelow(CtxOf(before), k).tri(e.b)
      ensures Compare(e.a, e.b, Now()) == Compare(e.a, e.b, EnvBelow(CtxOf(before), k))
    {
      assert vals[e.a] == st1.vals[e.a];
      if Type(e.a).Boolean? { BoolNeverM(CtxOf(before), k, e.a); }
      if Type(e.b).Boolean? { BoolNeverM(CtxOf(before), k, e.b); }
      CompareSame(e.a, e.b, Now(), EnvBelow(CtxOf(before), k));
    }

    lemma StateIs()
      ensures State() == Snap(vals, valid, user, modulesVal)
    {
    }

    lemma DidParts(before: Snap, after: Snap, s: Symbol)
      requires Did(before, after, s)
      ensures s in after.vals && s in after.valid
    {
    }

    /** expr_calc_value. Reading a tristate that is m as text looks at MODULES,
        which by then has been computed. */
    method CalcExpr(e: Expr, ghost k: nat, ghost early: bool) returns (v: Tri)
      requires Going(State(), k, early) && Within(Leaves(e), k, early) && (early ==> NoTristates(e))
      modifies this`vals, this`valid, this`modulesVal
      ensures Going(State(), k, early) && Went(old(State()), State(), k)
      ensures v == Eval(e, EnvBelow(CtxOf(old(State())), k))
      decreases k, 1, e
    {
      hide *;
      ghost var st0 := State();
      LeavesIn(e);
      EvalIs(e, EnvBelow(CtxOf(st0), k));
      if early { PlainIs(e); }
      match e
      case Sym(s) =>
        LeafBefore(State(), s, Leaves(e), k, early);
        CalcValue(s, early);
        LeafAfter(st0, State(), s, Leaves(e), k, early);
        StateIs();
        v := vals[s].curr;
      case Not(x) =>
        WithinPart(Leaves(x), Leaves(e), k, early);
        v := CalcExpr(x, k, early);
        v := 2 - v;
      case Bin(op, l, r) =>
        WithinPart(Leaves(l), Leaves(e), k, early);
        WithinPart(Leaves(r), Leaves(e), k, early);
        var x := CalcExpr(l, k, early);
        ghost var st1 := State();
        var y := CalcExpr(r, k, early);
        WentThen(st0, st1, State(), k);
        v := Apply(op, x, y);
      case Cmp(rel, a, b) =>
        LeafBefore(State(), a, Leaves(e), k, early);
        CalcValue(a, early);
        ghost var st1 := State();
        LeafAfter(st0, st1, a, Leaves(e), k, early);
        DidParts(st0, st1, a);
        LeafBefore(State(), b, Leaves(e), k, early);
        CalcValue(b, early);
        LeafAfter(st1, State(), b, Leaves(e), k, early);
        WentThen(st0, st1, State(), k);
        StateIs();
        ComparesNow(st0, st1, e, k, early);
        v := if Holds(rel, Compare(a, b, Now())) then 2 else 0;
    }

    lemma NoneWent(st: Snap, k: nat, early: bool)
      requires Going(st, k, early)
      ensures Went(st, st, k)
    {
    }

    method CalcMaybe(e: MaybeExpr, ghost k: nat, ghost early: bool) returns (v: Tri)
      requires Going(State(), k, early) && Within(LeavesOf(e), k, early) && (early ==> NoTristatesIn(e))
      modifies this`vals, this`valid, this`modulesVal
      ensures Going(State(), k, early) && Went(old(State()), State(), k)
      ensures v == EvalMaybe(e, EnvBelow(CtxOf(old(State())), k))
      decreases k, 2
    {
      if e.Null? {
        NoneWent(State(), k, early);
        return 2;
      }
      v := CalcExpr(e.e, k, early);
    }

    ghost predicate PlainProps(ps: seq<Property>) {
      forall i :: 0 <= i < |ps| ==> NoTristatesIn(ps[i].visible) && NoTristatesIn(ps[i].value)
    }

    ghost predicate AllParsed(ps: seq<Property>) {
      forall i :: 0 <= i < |ps| ==> Parsed(ps[i])
    }

    lemma PromptsStep(ps: seq<Property>, i: nat, env: Env, k: nat, early: bool)
      requires i < |ps| && AllParsed(ps) && (early ==> PlainProps(ps)) && Within(PropsLeaves(ps), k, early)
      ensures Prompts(ps[..i + 1], env) == Apply(Or, Prompts(ps[..i], env), if ps[i].text then EvalMaybe(ps[i].visible, env) else 0)
      ensures early ==> NoTristatesIn(ps[i].visible) && NoTristatesIn(ps[i].value)
      ensures ps[i].text ==> Within(LeavesOf(ps[i].visible), k, early)
    {
      assert ps[..i + 1][..i] == ps[..i];
      PropsWithin(ps, i);
    }

    lemma PromptsNone(ps: seq<Property>, env: Env)
      ensures Prompts(ps[..0], env) == 0 && ps[..|ps|] == ps
    {
    }

    /** The loop over the prompts in sym_calc_visibility. */
    method CalcPrompts(ps: seq<Property>, ghost k: nat, ghost early: bool) returns (tri: Tri)
      requires Going(State(), k, early) && Within(PropsLeaves(ps), k, early) && (early ==> PlainProps(ps)) && AllParsed(ps)
      modifies this`vals, this`valid, this`modulesVal
      ensures Going(State(), k, early) && Went(old(State()), State(), k)
      ensures tri == Prompts(ps, EnvBelow(CtxOf(old(State())), k))
      decreases k, 3
    {
      hide *;
      ghost var st0 := State();
      ghost var env := EnvBelow(CtxOf(st0), k);
      NoneWent(st0, k, early);
      PromptsNone(ps, env);
      tri := 0;
      for i := 0 to |ps|
        invariant Going(State(), k, early) && Went(st0, State(), k) && tri == Prompts(ps[..i], env)
      {
        PromptsStep(ps, i, env, k, early);
        if ps[i].text {
          ghost var st1 := State();
          var v := CalcMaybe(ps[i].visible, k, early);
          WentThen(st0, st1, State(), k);
          tri := Apply(Or, tri, v);
        } else {
          OrNone(tri);
        }
      }
    }

    lemma OrNone(t: Tri)
      ensures Apply(Or, t, 0) == t
    {
    }

    lemma DefaultStep(ps: seq<Property>, i: nat, env: Env, k: nat, early: bool)
      requires i < |ps| && (early ==> PlainProps(ps)) && Within(PropsLeaves(ps), k, early)
      ensures DefaultOf(ps[i..], env) == if ps[i].kind.PDefault? && EvalMaybe(ps[i].visible, env) != 0
        then Apply(And, EvalMaybe(ps[i].value, env), EvalMaybe(ps[i].visible, env)) else DefaultOf(ps[i + 1..], env)
      ensures early ==> NoTristatesIn(ps[i].visible) && NoTristatesIn(ps[i].value)
      ensures ps[i].kind.PDefault? ==> Within(LeavesOf(ps[i].visible), k, early) && Within(LeavesOf(ps[i].value), k, early)
    {
      assert ps[i..][1..] == ps[i + 1..];
      PropsWithin(ps, i);
    }

    lemma DefaultNone(ps: seq<Property>, env: Env)
      ensures ps[0..] == ps && DefaultOf(ps[|ps|..], env) == 0
    {
    }

    /** sym_get_default_prop, and the value of what it finds. */
    method CalcDefault(ps: seq<Property>, ghost k: nat, ghost early: bool) returns (tri: Tri)
      requires Going(State(), k, early) && Within(PropsLeaves(ps), k, early) && (early ==> PlainProps(ps))
      modifies this`vals, this`valid, this`modulesVal
      ensures Going(State(), k, early) && Went(old(State()), State(), k)
      ensures tri == DefaultOf(ps, EnvBelow(CtxOf(old(State())), k))
      decreases k, 3
    {
      hide *;
      ghost var st0 := State();
      ghost var env := EnvBelow(CtxOf(st0), k);
      NoneWent(st0, k, early);
      DefaultNone(ps, env);
      for i := 0 to |ps|
        invariant Going(State(), k, early) && Went(st0, State(), k) && DefaultOf(ps, env) == DefaultOf(ps[i..], env)
      {
        DefaultStep(ps, i, env, k, early);
        if ps[i].kind.PDefault? {
          ghost var st1 := State();
          var visible := CalcMaybe(ps[i].visible, k, early);
          WentThen(st0, st1, State(), k);
          if visible != 0 {
            ghost var st2 := State();
            var v := CalcMaybe(ps[i].value, k, early);
            WentThen(st0, st2, State(), k);
            return Apply(And, v, visible);
          }
        }
      }
      return 0;
    }

    lemma DeclIn(s: Symbol, early: bool)
      requires Fixed() && s in g && s in order && (early ==> s in cone)
      ensures var d, k := g[s], Place(order, s);
        Within(LeavesOf(d.dirDep), k, early) && Within(LeavesOf(d.revDep), k, early) && Within(LeavesOf(d.implied), k, early)
        && Within(PropsLeaves(d.props), k, early) && AllParsed(d.props)
        && (early ==> NoTristatesIn(d.dirDep) && NoTristatesIn(d.revDep) && NoTristatesIn(d.implied) && PlainProps(d.props))
    {
      var d := g[s];
      forall t | t in Needs(d) ensures t in g && t in order && Place(order, t) < Place(order, s) && (early ==> t in cone) {
        assert Edge(g, s, t);
        PlaceFalls(g, order, s, t);
      }
      NeedsMost(d);
    }

    lemma SnapModes(before: Snap, after: Snap, k: nat)
      requires Went(before, after, k)
      ensures after.modulesVal == before.modulesVal && after.user == before.user
    {
    }

    /** sym_calc_visibility: what it works out, before it is stored. */
    method CalcVisibility(s: Symbol, ghost early: bool) returns (visible: Tri, dirDep: Tri, revDep: Tri, implied: Tri)
      requires s in g && s in order && Fixed() && Going(State(), Place(order, s), early) && (early ==> s in cone)
      modifies this`vals, this`valid, this`modulesVal
      ensures Going(State(), Place(order, s), early) && Went(old(State()), State(), Place(order, s))
      ensures var env := EnvBelow(CtxOf(old(State())), Place(order, s));
        visible == Visible(g[s], Type(s), old(modulesVal) != 0, env) && dirDep == DirDep(g[s], Type(s), old(modulesVal) != 0, env)
        && revDep == RevDep(g[s], Type(s), old(modulesVal) != 0, env) && implied == Implied(g[s], Type(s), old(modulesVal) != 0, env)
      decreases Place(order, s), 4
    {
      hide *;
      ghost var k := Place(order, s);
      ghost var st0 := State();
      StateIs();
      var mods := modulesVal != 0;
      var d := g[s];
      DeclIn(s, early);
      BoundsAre(d, Type(s), mods, EnvBelow(CtxOf(st0), k));
      var tri := CalcPrompts(d.props, k, early);
      visible := Promote(tri, !Type(s).Tristate? || !mods);
      ghost var st1 := State();
      NoneWent(st1, k, early);
      WentThen(st0, st1, st1, k);
      tri := CalcMaybe(d.dirDep, k, early);
      WentThen(st0, st1, State(), k);
      dirDep := Promote(tri, IsBool(Type(s), mods));
      revDep := 0;
      if d.revDep.Some? {
        ghost var st2 := State();
        tri := CalcExpr(d.revDep.e, k, early);
        WentThen(st0, st2, State(), k);
        revDep := Promote(tri, IsBool(Type(s), mods));
      }
      implied := 0;
      if d.implied.Some? && dirDep != 0 {
        ghost var st3 := State();
        tri := CalcExpr(d.implied.e, k, early);
        WentThen(st0, st3, State(), k);
        implied := Promote(tri, IsBool(Type(s), mods));
      }
    }

    lemma BoundsAre(d: Decl, kind: SymbolType, mods: bool, env: Env)
      ensures Visible(d, kind, mods, env) == Promote(Prompts(d.props, env), !kind.Tristate? || !mods)
      ensures DirDep(d, kind, mods, env) == Promote(EvalMaybe(d.dirDep, env), IsBool(kind, mods))
      ensures RevDep(d, kind, mods, env) == if d.revDep.Null? then 0 else Promote(Eval(d.revDep.e, env), IsBool(kind, mods))
      ensures Implied(d, kind, mods, env)
           == if d.implied.Null? || DirDep(d, kind, mods, env) == 0 then 0 else Promote(Eval(d.implied.e, env), IsBool(kind, mods))
      ensures d.revDep.Some? ==> LeavesOf(d.revDep) == Leaves(d.revDep.e) && (NoTristatesIn(d.revDep) ==> NoTristates(d.revDep.e))
      ensures d.implied.Some? ==> LeavesOf(d.implied) == Leaves(d.implied.e) && (NoTristatesIn(d.implied) ==> NoTristates(d.implied.e))
    {
    }

    lemma Opened(st: Snap, s: Symbol, early: bool)
      requires May(st, s, early) && s !in st.valid
      ensures Fixed() && s in g && s in order && s in st.vals && (!early ==> s != modules)
      ensures Going(st.(valid := st.valid + {s}), Place(order, s), early)
    {
    }

    lemma Stored(st: Snap, s: Symbol, x: Calc, early: bool)
      requires s in order && s in g && Going(st, Place(order, s), early) && s in st.valid && TwoOrThree(s) && (!early ==> s != modules)
      ensures s in st.vals && Going(st.(vals := st.vals[s := x]), Place(order, s), early)
    {
      hide Right, Fixed;
      RightStore(CtxOf(st), Place(order, s), st.valid, st.vals, s, x);
    }

    /** The whole computation of s, from what its steps have done. */
    lemma Assembled(st0: Snap, a1: Snap, x: Calc, b2: Snap, y: Calc, fin: Snap, s: Symbol, early: bool)
      requires May(st0, s, early) && s in g && s in order && s !in st0.valid && TwoOrThree(s)
      requires Went(st0.(valid := st0.valid + {s}), a1, Place(order, s)) && s in a1.vals
      requires Went(a1.(vals := a1.vals[s := x]), b2, Place(order, s)) && s in b2.vals
      requires y == Values(CtxOf(st0), s)
      requires fin == Snap(b2.vals[s := y], b2.valid, b2.user,
                           if s == modules && y.curr != a1.vals[s].curr then y.curr else b2.modulesVal)
      ensures Did(st0, fin, s)
    {
      hide Values, Right, Fixed, Correct;
      DoneIs(st0, s, y);
      MoreStored(CtxOf(st0), s, st0.valid, st0.vals, a1.valid, a1.vals, x, b2.valid, b2.vals, y);
    }

    lemma DoneIs(st: Snap, s: Symbol, y: Calc)
      requires s in g && s in order && TwoOrThree(s) && y == Values(CtxOf(st), s)
      ensures Correct(CtxOf(st), s, y)
    {
    }

    lemma AlreadyDone(st: Snap, s: Symbol, early: bool)
      requires May(st, s, early) && s in st.valid
      ensures Did(st, st, s)
    {
    }

    lemma ConstantDone(st: Snap, fin: Snap, s: Symbol, early: bool)
      requires May(st, s, early) && s !in st.valid && !TwoOrThree(s) && s in st.vals
      requires fin == Snap(st.vals[s := st.vals[s].(curr := ConstTri(s))], st.valid + {s}, st.user, st.modulesVal)
      ensures Did(st, fin, s)
    {
    }

    lemma ValueIs(st: Snap, s: Symbol)
      requires s in g && s in order
      ensures var d, kind, mods, env := g[s], Type(s), st.modulesVal != 0, EnvBelow(CtxOf(st), Place(order, s));
        var visible, rev, implied := Visible(d, kind, mods, env), RevDep(d, kind, mods, env), Implied(d, kind, mods, env);
        var wanted := if visible != 0 && s in st.user then Apply(And, st.user[s], visible) else Apply(Or, DefaultOf(d.props, env), implied);
        Values(CtxOf(st), s) == Calc(visible, DirDep(d, kind, mods, env), rev, implied,
                                     Promote(Apply(Or, wanted, rev), IsBool(kind, mods) || implied == 2))
    {
    }

    lemma MayParts(st: Snap, s: Symbol, early: bool)
      requires May(st, s, early)
      ensures Fixed() && s in g && s in order && s in st.vals && (early ==> s in cone)
    {
    }

    lemma GoingVals(st: Snap, k: nat, early: bool, s: Symbol)
      requires Going(st, k, early) && s in g
      ensures s in st.vals
    {
    }

    lemma OpenEnv(st: Snap, s: Symbol)
      ensures CtxOf(st.(valid := st.valid + {s})) == CtxOf(st)
    {
    }

    lemma StoreEnv(st0: Snap, a1: Snap, s: Symbol, x: Calc, k: nat)
      requires Went(st0.(valid := st0.valid + {s}), a1, k) && s in a1.vals
      ensures CtxOf(a1.(vals := a1.vals[s := x])) == CtxOf(st0)
    {
    }

    lemma StillValid(before: Snap, after: Snap, k: nat, s: Symbol)
      requires Went(before, after, k) && s in before.valid
      ensures s in after.valid
    {
    }

    /** sym_calc_value for a bool, a tristate, a constant or an undefined symbol. */
    method CalcValue(s: Symbol, ghost early: bool)
      requires May(State(), s, early) && s in g && s in order
      modifies this`vals, this`valid, this`modulesVal
      ensures Did(old(State()), State(), s)
      decreases Place(order, s), 5
    {
      hide *;
      ghost var st0 := State();
      ghost var k := Place(order, s);
      StateIs();
      MayParts(st0, s, early);
      if s in valid {
        AlreadyDone(st0, s, early);
        return;
      }
      Opened(st0, s, early);
      valid := valid + {s};
      StateIs();
      var before := vals[s].curr;
      if !TwoOrThree(s) {
        vals := vals[s := vals[s].(curr := ConstTri(s))];
        StateIs();
        ConstantDone(st0, State(), s, early);
        return;
      }
      ghost var a0 := State();
      OpenEnv(st0, s);
      ValueIs(st0, s);
      DeclIn(s, early);
      var mods := modulesVal != 0;
      var visible, dirDep, revDep, implied := CalcVisibility(s, early);
      ghost var a1 := State();
      StateIs();
      GoingVals(a1, k, early, s);
      StillValid(a0, a1, k, s);
      SnapModes(a0, a1, k);
      BeforeIs(a0, a1, k, s);
      ghost var x := Calc(visible, dirDep, revDep, implied, 0);
      Stored(a1, s, x, early);
      StoreEnv(st0, a1, s, x, k);
      vals := vals[s := Calc(visible, dirDep, revDep, implied, 0)];
      StateIs();
      ghost var b1 := State();
      NoneWent(b1, k, early);
      var newval: Tri := 0;
      if visible != 0 && s in user {
        newval := Apply(And, user[s], visible);
      } else {
        newval := CalcDefault(g[s].props, k, early);
        if implied != 0 {
          newval := Apply(Or, newval, implied);
        } else {
          OrNone(newval);
        }
      }
      ghost var b2 := State();
      StateIs();
      GoingVals(b2, k, early, s);
      newval := Apply(Or, newval, revDep);
      PromoteIs(newval, IsBool(Type(s), mods) || implied == 2);
      if newval == 1 && (IsBool(Type(s), mods) || implied == 2) {
        newval := 2;
      }
      vals := vals[s := Calc(visible, dirDep, revDep, implied, newval)];
      if newval != before {
        if modules == s {
          modulesVal := newval;
        }
      }
      StateIs();
      Assembled(st0, a1, x, b2, Calc(visible, dirDep, revDep, implied, newval), State(), s, early);
    }

    lemma BeforeIs(before: Snap, after: Snap, k: nat, s: Symbol)
      requires Went(before, after, k) && s in before.valid && s in before.vals
      ensures s in after.vals && after.vals[s] == before.vals[s]
    {
    }

    lemma PromoteIs(t: Tri, b: bool)
      ensures Promote(t, b) == if t == 1 && b then 2 else t
    {
    }

    // ----- setting a value -----

    /** Everything that counts as computed is right, and MODULES is known. */
    ghost predicate Settled(st: Snap) { Going(st, |order|, false) }

    lemma SettledAt(st: Snap, s: Symbol)
      requires Settled(st) && s in st.valid && TwoOrThree(s)
      ensures Fixed() && Sane(CtxOf(st)) && s in g && s in order && s in st.vals && st.vals[s] == Values(CtxOf(st), s)
    {
    }

    /** Nothing need have been computed yet, but modules_val is the value that
        MODULES last had. */
    ghost predicate Loaded(st: Snap) {
      && Fixed() && st.vals.Keys == g.Keys
      && (forall t :: t in st.vals && !TwoOrThree(t) ==> st.vals[t].curr == ConstTri(t))
      && modules in st.vals && st.vals[modules].curr == st.modulesVal
    }

    lemma Cleared(st: Snap)
      requires Loaded(st)
      ensures modules in g && modules in order && May(Snap(st.vals, {}, st.user, st.modulesVal), modules, true)
    {
    }

    lemma ClearedDone(st: Snap, fin: Snap)
      requires Loaded(st) && Did(Snap(st.vals, {}, st.user, st.modulesVal), fin, modules)
      ensures Loaded(fin) && fin.user == st.user
      ensures modules in g && modules in order && (TwoOrThree(modules) ==> fin.modulesVal == Values(CtxOf(st), modules).curr)
      ensures (fin.modulesVal != 0) == (st.modulesVal != 0) ==> Settled(fin)
    {
    }

    lemma SettledLoaded(st: Snap, s: Symbol, val: Tri)
      requires Settled(st)
      ensures Loaded(st.(user := st.user[s := val]))
    {
    }

    /** MODULES does not need s. */
    lemma ModulesSame(st: Snap, s: Symbol, val: Tri)
      requires Settled(st) && s in g && s !in cone
      ensures modules in g && modules in order && (TwoOrThree(modules) ==> st.modulesVal == Values(CtxOf(st.(user := st.user[s := val])), modules).curr)
    {
      var c := CtxOf(st);
      assert Sane(c);
      SameOn(c, val, s, cone, modules);
    }

    lemma ModulesConst(st: Snap, fin: Snap)
      requires Loaded(st) && Loaded(fin) && !TwoOrThree(modules)
      ensures st.modulesVal == fin.modulesVal
    {
    }

    /** Setting a symbol to the value it has changes no values, unless that is
        above its prompt. */
    lemma SetSame(st: Snap, s: Symbol, val: Tri)
      requires Settled(st) && s in st.valid && TwoOrThree(s) && s in g && s in st.vals && st.vals[s].curr == val
      requires !AbovePrompt(st.vals[s], UserOf(st.user, s), val)
      ensures Settled(st.(user := st.user[s := val]))
    {
      hide *;
      var c := CtxOf(st);
      SettledAt(st, s);
      CtxIs(st);
      SetCtx(st, s, val, st.(user := st.user[s := val]));
      SetSameValues(c, s, val);
      SettledStays(st, st.(user := st.user[s := val]));
    }

    lemma SettledStays(st: Snap, fin: Snap)
      requires Settled(st) && fin == st.(user := fin.user)
      requires forall t :: t in CtxOf(st).g && t in CtxOf(st).order ==> Values(CtxOf(fin), t) == Values(CtxOf(st), t)
      ensures Settled(fin)
    {
      hide Values;
      var c, d := CtxOf(st), CtxOf(fin);
      forall t | t in fin.valid && t in order ensures t in fin.vals && Correct(d, t, fin.vals[t]) {
        assert Correct(c, t, st.vals[t]);
      }
    }

    /** A configuration as it is read, before anything has been computed: order is
        one that the search for cycles has found, needed is what MODULES needs. */
    constructor (config: Config, mod: Symbol, texts: Symbol -> string, reader: Reader, settings: map<Symbol, Tri>,
                 ghost found: seq<Symbol>, ghost needed: set<Symbol>)
      requires Sane(Ctx(config, found, settings, false, texts, reader))
      requires mod in needed && needed <= config.Keys && ClosedSet(config, needed) && forall s :: s in needed ==> PlainDecl(config[s])
      requires ConstTri(mod) == 0
      ensures Loaded(State()) && g == config && order == found && user == settings && modules == mod
    {
      g, modules, text, parse, order, cone := config, mod, texts, reader, found, needed;
      vals := map s | s in config :: Calc(0, 0, 0, 0, ConstTri(s));
      valid, user, modulesVal := {}, settings, 0;
    }

    /** sym_clear_all_valid: everything is to be computed anew, MODULES at once.
        When it comes out on or off as before, what has been computed for it is
        right. */
    method ClearAllValid()
      requires Loaded(State())
      modifies this`vals, this`valid, this`modulesVal
      ensures Loaded(State()) && user == old(user)
      ensures modules in g && modules in order
      ensures TwoOrThree(modules) ==> modulesVal == Values(CtxOf(old(State())), modules).curr
      ensures (modulesVal != 0) == (old(modulesVal) != 0) ==> Settled(State())
    {
      hide *;
      ghost var st := State();
      StateIs();
      Cleared(st);
      valid := {};
      StateIs();
      CalcValue(modules, true);
      ClearedDone(st, State());
      StateIs();
    }

    /** sym_set_tristate_value, for a symbol that MODULES does not need and whose
        value has been asked for. A value that is accepted becomes the symbol's
        value, with one exception. */
    method SetTristate(s: Symbol, val: Tri) returns (ok: bool)
      requires Settled(State()) && s in g && s in valid && s in vals && TwoOrThree(s) && s !in cone
      modifies this
      ensures s in order && ok == (old(vals[s]).curr == val || KconfigValue.Within(Type(s), old(modulesVal) != 0, old(vals[s]), val))
      ensures !ok ==> State() == old(State())
      ensures ok ==> user == old(user)[s := val] && modulesVal == old(modulesVal)
      ensures ok ==> (Values(CtxOf(State()), s).curr == val
                      <==> !(old(vals[s]).curr == val && AbovePrompt(old(vals[s]), UserOf(old(user), s), val)))
      ensures ok && old(vals[s]).curr == val ==> vals == old(vals) && valid == old(valid)
      ensures ok ==> (old(vals[s]).curr == val && AbovePrompt(old(vals[s]), UserOf(old(user), s), val)) || Settled(State())
    {
      hide *;
      ghost var st := State();
      StateIs();
      SettledAt(st, s);
      var oldval := vals[s].curr;
      if oldval != val && !KconfigValue.Within(Type(s), modulesVal != 0, vals[s], val) {
        return false;
      }
      CtxIs(st);
      AcceptedValue(CtxOf(st), s, val);
      if oldval == val && !AbovePrompt(vals[s], UserOf(user, s), val) { SetSame(st, s, val); }
      ModulesSame(st, s, val);
      SettledLoaded(st, s, val);
      user := user[s := val];
      StateIs();
      SetCtx(st, s, val, State());
      if oldval != val {
        ghost var mid := State();
        ClearAllValid();
        if !TwoOrThree(modules) { ModulesConst(mid, State()); }
        StateIs();
        SetCtx(st, s, val, State());
      }
      return true;
    }

    lemma CtxIs(st: Snap)
      ensures CtxOf(st).mods == (st.modulesVal != 0) && CtxOf(st).user == st.user && CtxOf(st).g == g && CtxOf(st).order == order
    {
    }

    lemma SetCtx(st: Snap, s: Symbol, val: Tri, fin: Snap)
      requires fin.user == st.user[s := val] && fin.modulesVal == st.modulesVal
      ensures CtxOf(fin) == CtxOf(st).(user := CtxOf(st).user[s := val])
    {
    }
  }
}
