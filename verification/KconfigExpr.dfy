/** Kconfig expressions and their three-valued meaning. */
module KconfigExpr {

  type Tri = t: int | 0 <= t <= 2

  datatype SymbolType = Unknown | Boolean | Tristate | Int | Hex | Str

  /** A symbol is identified by its name and by whether it is a constant;
      constants have no type. */
  datatype Symbol = Const(name: string) | Config(name: string, kind: SymbolType)

  const YES := Const("y")
  const MOD := Const("m")
  const NO := Const("n")

  function Type(s: Symbol): SymbolType {
    if s.Const? then Unknown else s.kind
  }

  predicate TwoOrThree(s: Symbol) { Type(s).Boolean? || Type(s).Tristate? }

  datatype Op = And | Or
  datatype Rel = Eq | Ne | Lt | Le | Gt | Ge

  datatype Expr =
    | Sym(s: Symbol)
    | Not(e: Expr)
    | Bin(op: Op, l: Expr, r: Expr)
    | Cmp(rel: Rel, a: Symbol, b: Symbol)

  /** A missing expression counts as y. */
  datatype MaybeExpr = Null | Some(e: Expr)

  // ----- values -----

  datatype Number = NotANumber | Signed(v: int) | Unsigned(u: nat)

  /** One assignment of values: tri and text for every symbol, whether modules
      are enabled, and how the C library reads numbers. */
  datatype Env = Env(tri: Symbol -> Tri, text: Symbol -> string, modules: bool, parse: Reader)

  /** What holds of every assignment: the constants have their own values, a
      bool is never m, a tristate is m only when modules are enabled, and y, m
      and n do not read as numbers. */
  ghost predicate Sound(env: Env) {
    && env.tri(YES) == 2 && env.tri(MOD) == 1 && env.tri(NO) == 0
    && (forall s: Symbol :: s.Const? ==> env.text(s) == s.name)
    && (forall s: Symbol :: Type(s).Boolean? ==> env.tri(s) != 1)
    && (forall s: Symbol :: Type(s).Tristate? && env.tri(s) == 1 ==> env.modules)
    && Plain(env.parse)
  }

  type Reader = (string, SymbolType) -> Number

  predicate Plain(parse: Reader) {
    parse("y", Unknown) == parse("m", Unknown) == parse("n", Unknown) == NotANumber
  }

  function TriText(t: Tri): string {
    if t == 0 then "n" else if t == 1 then "m" else "y"
  }

  /** sym_get_string_value */
  function Text(s: Symbol, env: Env): string {
    if TwoOrThree(s) then
      if env.tri(s) == 1 && !env.modules then "n" else TriText(env.tri(s))
    else env.text(s)
  }

  /** expr_parse_string */
  function Parse(text: string, kind: SymbolType, env: Env): Number {
    if kind.Boolean? || kind.Tristate? then
      Signed(if text == "n" then 0 else if text == "m" then 1 else if text == "y" then 2 else -1)
    else env.parse(text, kind)
  }

  /** strcmp, as a sign */
  function CompareText(s: string, t: string): int {
    if s == [] then (if t == [] then 0 else -1)
    else if t == [] then 1
    else if s[0] < t[0] then -1
    else if s[0] > t[0] then 1
    else CompareText(s[1..], t[1..])
  }

  lemma {:induction false} CompareTextZero(s: string, t: string)
    ensures CompareText(s, t) == 0 <==> s == t
  {
    if s != [] && t != [] && s[0] == t[0] {
      CompareTextZero(s[1..], t[1..]);
      assert s == [s[0]] + s[1..] && t == [t[0]] + t[1..];
    }
  }

  function Sign(x: int, y: int): int { if x < y then -1 else if x > y then 1 else 0 }

  /** The bits of a signed 64-bit number read as an unsigned one. */
  function Raw(n: Number): int
    requires !n.NotANumber?
  {
    match n
    case Unsigned(u) => u
    case Signed(v) => if v < 0 then v + 0x1_0000_0000_0000_0000 else v
  }

  /** The comparison that the relations are read off: as text unless both sides
      are numbers. */
  function Compare(a: Symbol, b: Symbol, env: Env): int {
    var s, t := Text(a, env), Text(b, env);
    var texts := Type(a).Str? && Type(b).Str?;
    var x := if texts then NotANumber else Parse(s, Type(a), env);
    var y := if texts then NotANumber else Parse(t, Type(b), env);
    if x.NotANumber? || y.NotANumber? then CompareText(s, t)
    else if x.Unsigned? || y.Unsigned? then Sign(Raw(x), Raw(y))
    else Sign(x.v, y.v)
  }

  function Holds(rel: Rel, res: int): bool {
    match rel
    case Eq => res == 0
    case Ne => res != 0
    case Lt => res < 0
    case Le => res <= 0
    case Gt => res > 0
    case Ge => res >= 0
  }

  function Apply(op: Op, x: Tri, y: Tri): Tri {
    if op.And? then (if x < y then x else y) else (if x > y then x else y)
  }

  /** expr_calc_value */
  function Eval(e: Expr, env: Env): Tri {
    match e
    case Sym(s) => env.tri(s)
    case Not(x) => 2 - Eval(x, env)
    case Bin(op, l, r) => Apply(op, Eval(l, env), Eval(r, env))
    case Cmp(rel, a, b) => if Holds(rel, Compare(a, b, env)) then 2 else 0
  }

  function EvalMaybe(e: MaybeExpr, env: Env): Tri {
    if e.Null? then 2 else Eval(e.e, env)
  }

  /** The constant that changes nothing as an operand: y for &&, n for ||. */
  function Unit(op: Op): Symbol { if op.And? then YES else NO }

  /** The constant that decides the result. */
  function Zero(op: Op): Symbol { if op.And? then NO else YES }

  function Size(e: Expr): (n: nat)
    ensures 1 <= n
  {
    match e
    case Sym(_) => 1
    case Cmp(_, _, _) => 1
    case Not(x) => 1 + Size(x)
    case Bin(_, l, r) => 1 + Size(l) + Size(r)
  }

  // ----- comparisons of a bool or tristate symbol with a constant -----

  /** Whether a symbol of value t equals the constant c: constants that read as
      numbers are compared as numbers. */
  predicate Matches(t: Tri, c: Symbol, parse: Reader) {
    var y := parse(c.name, Unknown);
    if y.NotANumber? then c.name == TriText(t)
    else if y.Unsigned? then y.u == t
    else y.v == t
  }

  lemma CompareConst(a: Symbol, c: Symbol, env: Env)
    requires Sound(env) && TwoOrThree(a) && c.Const?
    ensures Compare(a, c, env) == 0 <==> Matches(env.tri(a), c, env.parse)
  {
    CompareTextZero(Text(a, env), Text(c, env));
  }

  lemma MatchesYmn(t: Tri, parse: Reader)
    requires Plain(parse)
    ensures Matches(t, YES, parse) <==> t == 2
    ensures Matches(t, MOD, parse) <==> t == 1
    ensures Matches(t, NO, parse) <==> t == 0
  {
  }

  /** No value equals two different constants of cs. */
  ghost predicate Clear(cs: set<Symbol>, parse: Reader) {
    forall b, c, t: Tri :: b in cs && c in cs && b != c ==> !(Matches(t, b, parse) && Matches(t, c, parse))
  }

  const YMN := {YES, MOD, NO}

  /** The usual constants are told apart by every assignment. */
  lemma YmnClear(parse: Reader)
    requires Plain(parse)
    ensures Clear(YMN, parse)
  {
    forall b, c, t: Tri | b in YMN && c in YMN && b != c ensures !(Matches(t, b, parse) && Matches(t, c, parse)) {
      MatchesYmn(t, parse);
    }
  }

  /** The constants that symbols are compared with. */
  function Rights(e: Expr): set<Symbol> {
    match e
    case Sym(_) => {}
    case Not(x) => Rights(x)
    case Bin(_, l, r) => Rights(l) + Rights(r)
    case Cmp(_, _, b) => if b.Const? then {b} else {}
  }

  /** Negation stands on plain symbols only. */
  predicate Flat(e: Expr) {
    match e
    case Sym(_) => true
    case Cmp(_, _, _) => true
    case Not(x) => x.Sym?
    case Bin(_, l, r) => Flat(l) && Flat(r)
  }

  /** Simplifying e to f: not larger, no new constants beside y, m and n, no new
      negations of more than a symbol, and the same value whenever the constants
      can be told apart. */
  ghost predicate Simplifies(e: Expr, f: Expr) {
    && Size(f) <= Size(e) && Rights(f) <= Rights(e) + YMN && (Flat(e) ==> Flat(f))
    && forall env :: Sound(env) && Clear(Rights(e) + YMN, env.parse) ==> Eval(f, env) == Eval(e, env)
  }

  lemma ClearLess(cs: set<Symbol>, ds: set<Symbol>, parse: Reader)
    requires Clear(cs, parse) && ds <= cs
    ensures Clear(ds, parse)
  {
  }

  lemma SimplifiesSelf(e: Expr)
    ensures Simplifies(e, e)
  {
  }

  lemma SimplifiesChain(e: Expr, f: Expr, g: Expr)
    requires Simplifies(e, f) && Simplifies(f, g)
    ensures Simplifies(e, g)
  {
    forall env | Sound(env) && Clear(Rights(e) + YMN, env.parse) ensures Eval(g, env) == Eval(e, env) {
      ClearLess(Rights(e) + YMN, Rights(f) + YMN, env.parse);
    }
  }
}
