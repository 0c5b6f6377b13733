/** Joining two operands of || or && into one. */
module KconfigJoin {
  import opened KconfigExpr
  import opened KconfigEq

  predicate IsEq(e: Expr) { e.Cmp? && e.rel.Eq? }

  predicate IsNe(e: Expr) { e.Cmp? && e.rel.Ne? }

  datatype MaybeSymbol = Nothing | About(s: Symbol)

  /** The symbol that the first operand is about, if there is one. */
  function FirstSymbol(e: Expr): MaybeSymbol {
    match e
    case Sym(s) => About(s)
    case Cmp(rel, a, _) => if rel.Eq? || rel.Ne? then About(a) else Nothing
    case Not(x) => if x.Sym? then About(x.s) else if IsEq(x) || IsNe(x) then About(x.a) else Nothing
    case Bin(_, _, _) => Nothing
  }

  /** The same for the second operand, which may be negated only if it is a
      plain symbol. */
  function SecondSymbol(e: Expr): MaybeSymbol {
    match e
    case Sym(s) => About(s)
    case Cmp(rel, a, _) => if rel.Eq? || rel.Ne? then About(a) else Nothing
    case Not(x) => if x.Sym? then About(x.s) else Nothing
    case Bin(_, _, _) => Nothing
  }

  predicate Both(e1: Expr, e2: Expr, b: Symbol, c: Symbol)
    requires e1.Cmp? && e2.Cmp?
  {
    (e1.b == b && e2.b == c) || (e1.b == c && e2.b == b)
  }

  /** expr_join_or, for operands about the symbol s */
  function JoinOrAbout(s: Symbol, e1: Expr, e2: Expr): MaybeExpr {
    if Type(s).Tristate? && IsEq(e1) && IsEq(e2) && Both(e1, e2, YES, MOD) then Some(Cmp(Ne, s, NO))
    else if Type(s).Tristate? && IsEq(e1) && IsEq(e2) && Both(e1, e2, YES, NO) then Some(Cmp(Ne, s, MOD))
    else if Type(s).Tristate? && IsEq(e1) && IsEq(e2) && Both(e1, e2, MOD, NO) then Some(Cmp(Ne, s, YES))
    else if Type(s).Boolean? && ((e1.Not? && e1.e.Sym? && e2.Sym?) || (e2.Not? && e2.e.Sym? && e1.Sym?)) then Some(Sym(YES))
    else Null
  }

  function JoinOr(e1: Expr, e2: Expr): MaybeExpr {
    if ExprEq(e1, e2) then Some(e1)
    else if FirstSymbol(e1) == Nothing || FirstSymbol(e1) != SecondSymbol(e2) then Null
    else
      var s := FirstSymbol(e1).s;
      if TwoOrThree(s) then JoinOrAbout(s, e1, e2) else Null
  }

  /** One of two operands in either order: the plain symbol and a comparison
      with c. */
  predicate WithPlain(e1: Expr, e2: Expr, rel: Rel, c: Symbol) {
    (e1.Sym? && e2.Cmp? && e2.rel == rel && e2.b == c) || (e2.Sym? && e1.Cmp? && e1.rel == rel && e1.b == c)
  }

  /** expr_join_and, for operands about the symbol s */
  function JoinAndAbout(s: Symbol, e1: Expr, e2: Expr): MaybeExpr {
    if WithPlain(e1, e2, Eq, YES) then Some(Cmp(Eq, s, YES))
    else if WithPlain(e1, e2, Ne, NO) then Some(Sym(s))
    else if WithPlain(e1, e2, Ne, MOD) then Some(Cmp(Eq, s, YES))
    else if !Type(s).Tristate? then Null
    else if IsEq(e1) && IsNe(e2) && e1.b.Const? && e2.b.Const? then
      Some(if e1.b != e2.b then Cmp(Eq, s, e1.b) else Sym(NO))
    else if IsNe(e1) && IsEq(e2) && e1.b.Const? && e2.b.Const? then
      Some(if e1.b != e2.b then Cmp(Eq, s, e2.b) else Sym(NO))
    else if IsNe(e1) && IsNe(e2) && Both(e1, e2, YES, NO) then Some(Cmp(Eq, s, MOD))
    else if IsNe(e1) && IsNe(e2) && Both(e1, e2, YES, MOD) then Some(Cmp(Eq, s, NO))
    else if IsNe(e1) && IsNe(e2) && Both(e1, e2, MOD, NO) then Some(Cmp(Eq, s, YES))
    else Null
  }

  function JoinAnd(e1: Expr, e2: Expr): MaybeExpr {
    if ExprEq(e1, e2) then Some(e1)
    else if FirstSymbol(e1) == Nothing || FirstSymbol(e1) != SecondSymbol(e2) then Null
    else
      var s := FirstSymbol(e1).s;
      if TwoOrThree(s) then JoinAndAbout(s, e1, e2) else Null
  }

  function Join(op: Op, e1: Expr, e2: Expr): MaybeExpr {
    if op.And? then JoinAnd(e1, e2) else JoinOr(e1, e2)
  }

  /** The join has the value of the two operands together, provided the
      constants in them can be told apart; nothing grows. */
  lemma JoinOk(op: Op, e1: Expr, e2: Expr)
    requires Join(op, e1, e2).Some?
    ensures var t := Join(op, e1, e2).e;
      && (t == e1 || Size(t) == 1)
      && Rights(t) <= Rights(e1) + Rights(e2) + YMN
      && forall env :: Sound(env) && Clear(Rights(e1) + Rights(e2) + YMN, env.parse) ==>
           Eval(t, env) == Apply(op, Eval(e1, env), Eval(e2, env))
  {
    forall env | Sound(env) && Clear(Rights(e1) + Rights(e2) + YMN, env.parse)
      ensures Eval(Join(op, e1, e2).e, env) == Apply(op, Eval(e1, env), Eval(e2, env))
    {
      if ExprEq(e1, e2) {
        ExprEqSound(e1, e2, env);
      } else {
        var s := FirstSymbol(e1).s;
        if op.And? {
          JoinAndValue(s, e1, e2, env);
        } else {
          JoinOrValue(s, e1, e2, env);
        }
      }
    }
  }

  lemma JoinOrValue(s: Symbol, e1: Expr, e2: Expr, env: Env)
    requires FirstSymbol(e1) == About(s) == SecondSymbol(e2) && TwoOrThree(s) && Sound(env)
    requires JoinOrAbout(s, e1, e2).Some?
    ensures Eval(JoinOrAbout(s, e1, e2).e, env) == Apply(Or, Eval(e1, env), Eval(e2, env))
  {
    Values(s, env);
    hide Compare, Matches;
  }

  /** Comparing a bool or tristate symbol with y, m and n. */
  lemma Values(s: Symbol, env: Env)
    requires Sound(env) && TwoOrThree(s)
    ensures Compare(s, YES, env) == 0 <==> env.tri(s) == 2
    ensures Compare(s, MOD, env) == 0 <==> env.tri(s) == 1
    ensures Compare(s, NO, env) == 0 <==> env.tri(s) == 0
  {
    CompareConst(s, YES, env);
    CompareConst(s, MOD, env);
    CompareConst(s, NO, env);
    MatchesYmn(env.tri(s), env.parse);
  }

  lemma JoinAndValue(s: Symbol, e1: Expr, e2: Expr, env: Env)
    requires FirstSymbol(e1) == About(s) == SecondSymbol(e2) && TwoOrThree(s) && Sound(env)
    requires Clear(Rights(e1) + Rights(e2), env.parse)
    requires JoinAndAbout(s, e1, e2).Some?
    ensures Eval(JoinAndAbout(s, e1, e2).e, env) == Apply(And, Eval(e1, env), Eval(e2, env))
  {
    if e1.Cmp? && e2.Cmp? {
      JoinTwoComparisons(s, e1, e2, env);
    } else {
      Values(s, env);
      hide Compare, Matches, Clear, Sound, Rights;
    }
  }

  lemma JoinTwoComparisons(s: Symbol, e1: Expr, e2: Expr, env: Env)
    requires e1.Cmp? && e2.Cmp? && e1.a == s == e2.a && TwoOrThree(s) && Sound(env)
    requires Clear(Rights(e1) + Rights(e2), env.parse)
    requires JoinAndAbout(s, e1, e2).Some?
    ensures Eval(JoinAndAbout(s, e1, e2).e, env) == Apply(And, Eval(e1, env), Eval(e2, env))
  {
    if IsNe(e1) && IsNe(e2) {
      Values(s, env);
      hide Compare, Matches, Clear, Sound, Rights;
    } else {
      NotBoth(s, e1.b, e2.b, env);
      hide Compare, Matches, Clear, Sound, Rights;
    }
  }

  lemma NotBoth(s: Symbol, b: Symbol, c: Symbol, env: Env)
    requires TwoOrThree(s) && Sound(env) && b.Const? && c.Const? && Clear({b} + {c}, env.parse)
    ensures b != c ==> Compare(s, b, env) != 0 || Compare(s, c, env) != 0
  {
    CompareConst(s, b, env);
    CompareConst(s, c, env);
    hide Compare, Matches;
  }

  // ----- constants that read as the same number -----

  function Assignment(s: Symbol, t: Tri, parse: Reader): Env {
    Env((x: Symbol) => if x == s || x == YES then (if x == s then t else 2) else if x == MOD then 1 else 0,
        (x: Symbol) => x.name, true, parse)
  }

  lemma AssignmentSound(s: Symbol, t: Tri, parse: Reader)
    requires Plain(parse) && Type(s).Tristate?
    ensures Sound(Assignment(s, t, parse)) && Assignment(s, t, parse).tri(s) == t && Assignment(s, t, parse).parse == parse
  {
  }

  /** Exactly when a='b' && a!='c' may become a='b' for two different constants:
      when no value of a equals both of them. */
  lemma JoinAndExact(s: Symbol, b: Symbol, c: Symbol, parse: Reader)
    requires Plain(parse) && Type(s).Tristate? && b.Const? && c.Const? && b != c
    ensures JoinAnd(Cmp(Eq, s, b), Cmp(Ne, s, c)) == Some(Cmp(Eq, s, b))
    ensures (forall env :: Sound(env) && env.parse == parse ==>
               Eval(Cmp(Eq, s, b), env) == Eval(Bin(And, Cmp(Eq, s, b), Cmp(Ne, s, c)), env))
       <==> forall t: Tri :: !(Matches(t, b, parse) && Matches(t, c, parse))
  {
    if t: Tri :| Matches(t, b, parse) && Matches(t, c, parse) {
      var env := Assignment(s, t, parse);
      AssignmentSound(s, t, parse);
      CompareConst(s, b, env);
      CompareConst(s, c, env);
    } else {
      forall env | Sound(env) && env.parse == parse
        ensures Eval(Cmp(Eq, s, b), env) == Eval(Bin(And, Cmp(Eq, s, b), Cmp(Ne, s, c)), env)
      {
        CompareConst(s, b, env);
        CompareConst(s, c, env);
      }
    }
  }

  /** The constants 1 and 0x1 are different symbols but the same number, and a
      tristate that is m equals both: the join turns n into y. */
  lemma JoinAndCounterexample(s: Symbol, parse: Reader)
    requires Plain(parse) && Type(s).Tristate?
    requires parse("1", Unknown) == Signed(1) && parse("0x1", Unknown) == Signed(1)
    ensures var e := Bin(And, Cmp(Eq, s, Const("1")), Cmp(Ne, s, Const("0x1")));
      && JoinAnd(e.l, e.r) == Some(e.l)
      && exists env :: Sound(env) && env.parse == parse && Eval(e, env) == 0 && Eval(e.l, env) == 2
  {
    var b, c := Const("1"), Const("0x1");
    JoinAndExact(s, b, c, parse);
    var env := Assignment(s, 1, parse);
    AssignmentSound(s, 1, parse);
    CompareConst(s, b, env);
    CompareConst(s, c, env);
    assert Matches(1, b, parse) && Matches(1, c, parse);
    assert Sound(env) && env.parse == parse;
    var e := Bin(And, Cmp(Eq, s, b), Cmp(Ne, s, c));
    assert Eval(e, env) == 0 && Eval(e.l, env) == 2;
  }
}
