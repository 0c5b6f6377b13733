/** The value of bool and tristate symbols as a function of the user's settings,
    and which settings take effect. */
module KconfigValue {
  import opened KconfigExpr
  import opened KconfigGraph

  datatype UserValue = Unset | Set(t: Tri)

  /** What is computed for a symbol: the bounds on what the user may set, and the
      value. */
  datatype Calc = Calc(visible: Tri, dirDep: Tri, revDep: Tri, implied: Tri, curr: Tri)

  /** m becomes y where there is no m. */
  function Promote(t: Tri, boolean: bool): Tri { if t == 1 && boolean then 2 else t }

  /** sym_get_type is S_BOOLEAN: tristates are bools while modules are off. */
  predicate IsBool(kind: SymbolType, mods: bool) { kind.Boolean? || (kind.Tristate? && !mods) }

  /** The highest of the prompts' visibilities. */
  function Prompts(ps: seq<Property>, env: Env): Tri {
    if ps == [] then 0
    else
      var p := ps[|ps| - 1];
      Apply(Or, Prompts(ps[..|ps| - 1], env), if p.text then EvalMaybe(p.visible, env) else 0)
  }

  /** The first default whose condition holds, no further than its condition. */
  function DefaultOf(ps: seq<Property>, env: Env): Tri {
    if ps == [] then 0
    else if ps[0].kind.PDefault? && EvalMaybe(ps[0].visible, env) != 0 then
      Apply(And, EvalMaybe(ps[0].value, env), EvalMaybe(ps[0].visible, env))
    else DefaultOf(ps[1..], env)
  }

  function Visible(d: Decl, kind: SymbolType, mods: bool, env: Env): Tri {
    Promote(Prompts(d.props, env), !kind.Tristate? || !mods)
  }

  function DirDep(d: Decl, kind: SymbolType, mods: bool, env: Env): Tri {
    Promote(EvalMaybe(d.dirDep, env), IsBool(kind, mods))
  }

  function RevDep(d: Decl, kind: SymbolType, mods: bool, env: Env): Tri {
    if d.revDep.Null? then 0 else Promote(Eval(d.revDep.e, env), IsBool(kind, mods))
  }

  function Implied(d: Decl, kind: SymbolType, mods: bool, env: Env): Tri {
    if d.implied.Null? || DirDep(d, kind, mods, env) == 0 then 0 else Promote(Eval(d.implied.e, env), IsBool(kind, mods))
  }

  /** What the symbol would be without being selected: the user's value as far as
      it is visible, else its default, raised to what implies it. */
  function Wanted(d: Decl, user: UserValue, env: Env, visible: Tri, implied: Tri): Tri {
    if visible != 0 && user.Set? then Apply(And, user.t, visible)
    else Apply(Or, DefaultOf(d.props, env), implied)
  }

  /** sym_calc_value, as a function. */
  function Compute(d: Decl, kind: SymbolType, mods: bool, user: UserValue, env: Env): Calc {
    var visible := Visible(d, kind, mods, env);
    var rev := RevDep(d, kind, mods, env);
    var implied := Implied(d, kind, mods, env);
    var raw := Apply(Or, Wanted(d, user, env, visible, implied), rev);
    Calc(visible, DirDep(d, kind, mods, env), rev, implied, Promote(raw, IsBool(kind, mods) || implied == 2))
  }

  // ----- which values the user may set -----

  /** sym_tristate_within_range */
  predicate Within(kind: SymbolType, mods: bool, c: Calc, val: Tri) {
    && c.visible != 0
    && (kind.Boolean? || kind.Tristate?)
    && !(IsBool(kind, mods) && val == 1)
    && c.visible > c.revDep
    && !(c.implied == 2 && val == 1)
    && c.revDep <= val <= c.visible
  }

  /** A value above what the prompt allows, which only a default can give. */
  predicate AbovePrompt(c: Calc, user: UserValue, val: Tri) {
    user.Unset? && c.visible == 1 && val == 2 && c.revDep != 2 && c.implied != 2
  }

  /** A value within the range takes effect. A value that the symbol has already
      is accepted too, and takes effect unless it is above the prompt. */
  lemma TakesEffect(d: Decl, kind: SymbolType, mods: bool, user: UserValue, env: Env, val: Tri)
    requires kind.Boolean? || kind.Tristate?
    requires var c := Compute(d, kind, mods, user, env); c.curr == val || Within(kind, mods, c, val)
    ensures var c := Compute(d, kind, mods, user, env);
      Compute(d, kind, mods, Set(val), env).curr == val <==> !(c.curr == val && AbovePrompt(c, user, val))
  {
  }

  /** A prompt that is only visible as m, and a default of y. */
  const M_OR_Y := Decl(Null, Null, Null, [Property(PPrompt, true, Some(Sym(MOD)), Null), Property(PDefault, false, Null, Some(Sym(YES)))])

  /** It is y by default, but m once the user has set it to y. */
  lemma AbovePromptExample(env: Env)
    requires Sound(env)
    ensures Compute(M_OR_Y, Tristate, true, Unset, env).curr == 2
    ensures Compute(M_OR_Y, Tristate, true, Set(2), env).curr == 1
  {
    var ps := M_OR_Y.props;
    assert ps[..1] == [ps[0]];
    assert ps[..1][..0] == [];
    assert Prompts(ps[..1], env) == 1 && Prompts(ps, env) == 1;
    assert ps[1..] == [ps[1]];
    assert DefaultOf(ps, env) == DefaultOf(ps[1..], env) == 2;
  }

  // ----- the values of a whole configuration -----

  datatype Ctx = Ctx(g: Config, order: seq<Symbol>, user: map<Symbol, Tri>, mods: bool, text: Symbol -> string, parse: Reader)

  ghost predicate Sane(c: Ctx) {
    && Closed(c.g) && Ordered(c.g, c.order)
    && (forall s :: s in c.g ==> s in c.order)
    && (forall s, i :: s in c.g && 0 <= i < |c.g[s].props| ==> Parsed(c.g[s].props[i]))
  }

  /** Only prompts, menus and comments carry a text. */
  predicate Parsed(p: Property) { p.text ==> p.kind.PPrompt? || p.kind.PMenu? || p.kind.PComment? }

  function ConstTri(s: Symbol): Tri { if s == YES then 2 else if s == MOD then 1 else 0 }

  function UserOf(user: map<Symbol, Tri>, s: Symbol): UserValue { if s in user then Set(user[s]) else Unset }

  /** The values of the symbols that come before place k. */
  ghost function EnvBelow(c: Ctx, k: nat): Env
    decreases k, 0
  {
    Env((s: Symbol) => if !TwoOrThree(s) then ConstTri(s)
                       else if s in c.g && s in c.order && Place(c.order, s) < k then Values(c, s).curr else 0,
        c.text, c.mods, c.parse)
  }

  /** What every symbol of the configuration comes out as. */
  ghost function Values(c: Ctx, s: Symbol): Calc
    requires s in c.g && s in c.order
    decreases Place(c.order, s), 1
  {
    Compute(c.g[s], Type(s), c.mods, UserOf(c.user, s), EnvBelow(c, Place(c.order, s)))
  }

  // ----- only what is needed matters -----

  ghost predicate Agree(d: set<Symbol>, a: Env, b: Env) {
    a.text == b.text && a.modules == b.modules && a.parse == b.parse && forall s :: s in d ==> a.tri(s) == b.tri(s)
  }

  lemma {:induction false} EvalAgree(e: Expr, a: Env, b: Env)
    requires Agree(Leaves(e), a, b)
    ensures Eval(e, a) == Eval(e, b)
  {
    match e
    case Sym(s) =>
    case Not(x) => EvalAgree(x, a, b);
    case Bin(_, l, r) => EvalAgree(l, a, b); EvalAgree(r, a, b);
    case Cmp(_, s, t) =>
      assert Text(s, a) == Text(s, b) && Text(t, a) == Text(t, b);
  }

  lemma MaybeAgree(e: MaybeExpr, a: Env, b: Env)
    requires Agree(LeavesOf(e), a, b)
    ensures EvalMaybe(e, a) == EvalMaybe(e, b)
  {
    if e.Some? { EvalAgree(e.e, a, b); }
  }

  lemma {:induction false} PromptsAgree(ps: seq<Property>, a: Env, b: Env)
    requires Agree(PropsLeaves(ps), a, b) && forall i :: 0 <= i < |ps| ==> Parsed(ps[i])
    ensures Prompts(ps, a) == Prompts(ps, b)
  {
    if ps != [] {
      var p := ps[|ps| - 1];
      PromptsAgree(ps[..|ps| - 1], a, b);
      if p.text { MaybeAgree(p.visible, a, b); }
    }
  }

  lemma {:induction false} PropsLeavesRest(ps: seq<Property>)
    requires ps != []
    ensures PropLeaves(ps[0]) <= PropsLeaves(ps) && PropsLeaves(ps[1..]) <= PropsLeaves(ps)
  {
    if |ps| == 1 {
      assert ps[1..] == [] && ps[..0] == [];
    } else {
      PropsLeavesRest(ps[..|ps| - 1]);
      assert ps[..|ps| - 1][1..] == ps[1..][..|ps| - 2];
    }
  }

  lemma {:induction false} DefaultAgree(ps: seq<Property>, a: Env, b: Env)
    requires Agree(PropsLeaves(ps), a, b)
    ensures DefaultOf(ps, a) == DefaultOf(ps, b)
  {
    if ps != [] {
      PropsLeavesRest(ps);
      DefaultAgree(ps[1..], a, b);
      if ps[0].kind.PDefault? {
        MaybeAgree(ps[0].visible, a, b);
        MaybeAgree(ps[0].value, a, b);
      }
    }
  }

  lemma ComputeAgree(d: Decl, kind: SymbolType, mods: bool, user: UserValue, a: Env, b: Env)
    requires Agree(Needs(d), a, b) && forall i :: 0 <= i < |d.props| ==> Parsed(d.props[i])
    ensures Compute(d, kind, mods, user, a) == Compute(d, kind, mods, user, b)
  {
    PromptsAgree(d.props, a, b);
    DefaultAgree(d.props, a, b);
    MaybeAgree(d.dirDep, a, b);
    MaybeAgree(d.revDep, a, b);
    MaybeAgree(d.implied, a, b);
  }

  /** A set of symbols that need nothing outside it. */
  ghost predicate ClosedSet(g: Config, d: set<Symbol>) {
    forall s, t :: s in d && Edge(g, s, t) ==> t in d
  }

  /** Changing one symbol's user value changes nothing among symbols that do not
      need it, nor anywhere if it does not change that symbol. */
  lemma {:induction false} SameOn(c: Ctx, val: Tri, s: Symbol, d: set<Symbol>, t: Symbol)
    requires Sane(c) && ClosedSet(c.g, d) && t in d && t in c.g && s in c.g
    requires s in d ==> Values(c.(user := c.user[s := val]), s) == Values(c, s)
    ensures Values(c.(user := c.user[s := val]), t) == Values(c, t)
    decreases Place(c.order, t)
  {
    var c' := c.(user := c.user[s := val]);
    if t != s {
      forall u | Edge(c.g, t, u) ensures u in c.g && Values(c', u) == Values(c, u) {
        PlaceFalls(c.g, c.order, t, u);
        SameOn(c, val, s, d, u);
      }
      SameNeeds(c, c', t, UserOf(c.user, t));
    }
  }

  lemma SameNeeds(c: Ctx, c': Ctx, t: Symbol, user: UserValue)
    requires Sane(c) && t in c.g && c' == c.(user := c'.user)
    requires forall u :: Edge(c.g, t, u) ==> Values(c', u) == Values(c, u)
    ensures Compute(c.g[t], Type(t), c.mods, user, EnvBelow(c', Place(c.order, t)))
         == Compute(c.g[t], Type(t), c.mods, user, EnvBelow(c, Place(c.order, t)))
  {
    var a, b := EnvBelow(c, Place(c.order, t)), EnvBelow(c', Place(c.order, t));
    forall u | u in Needs(c.g[t]) ensures a.tri(u) == b.tri(u) {
      assert Edge(c.g, t, u);
      PlaceFalls(c.g, c.order, t, u);
    }
    ComputeAgree(c.g[t], Type(t), c.mods, user, a, b);
  }

  lemma SameBelow(c: Ctx, val: Tri, s: Symbol)
    requires Sane(c) && s in c.g
    ensures Values(c.(user := c.user[s := val]), s)
         == Compute(c.g[s], Type(s), c.mods, Set(val), EnvBelow(c, Place(c.order, s)))
  {
    var c' := c.(user := c.user[s := val]);
    var k := Place(c.order, s);
    var d := set u | u in c.g && u in c.order && Place(c.order, u) < k;
    forall u, v | u in d && Edge(c.g, u, v) ensures v in d {
      PlaceFalls(c.g, c.order, u, v);
    }
    forall u | Edge(c.g, s, u) ensures u in c.g && Values(c', u) == Values(c, u) {
      PlaceFalls(c.g, c.order, s, u);
      SameOn(c, val, s, d, u);
    }
    SameNeeds(c, c', s, Set(val));
  }

  /** Setting a value that is accepted makes it the symbol's value, except for one
      that was there already and is above the prompt. */
  lemma AcceptedValue(c: Ctx, s: Symbol, val: Tri)
    requires Sane(c) && s in c.g && TwoOrThree(s)
    requires Values(c, s).curr == val || Within(Type(s), c.mods, Values(c, s), val)
    ensures Values(c.(user := c.user[s := val]), s).curr == val
      <==> !(Values(c, s).curr == val && AbovePrompt(Values(c, s), UserOf(c.user, s), val))
  {
    SameBelow(c, val, s);
    TakesEffect(c.g[s], Type(s), c.mods, UserOf(c.user, s), EnvBelow(c, Place(c.order, s)), val);
  }
}
