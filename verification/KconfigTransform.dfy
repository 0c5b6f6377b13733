/** Rewriting dependencies: pushing negation inwards, and dropping comparisons
    that a bool cannot tell from the symbol itself. */
module KconfigTransform {
  import opened KconfigExpr
  import opened KconfigEq
  import opened KconfigDups

  /** A measure that De Morgan's laws make smaller although the tree grows. */
  function Weight(e: Expr): (n: nat)
    ensures 1 <= n
  {
    match e
    case Sym(_) => 1
    case Cmp(_, _, _) => 2
    case Not(x) => 2 * Weight(x)
    case Bin(_, l, r) => 1 + Weight(l) + Weight(r)
  }

  function Opposite(rel: Rel): Rel {
    match rel
    case Eq => Ne
    case Ne => Eq
    case Le => Gt
    case Gt => Le
    case Ge => Lt
    case Lt => Ge
  }

  function Dual(op: Op): Op { if op.And? then Or else And }

  lemma DeMorganWeight(op: Op, l: Expr, r: Expr)
    ensures Weight(Bin(Dual(op), Not(l), Not(r))) < 2 * Weight(Bin(op, l, r))
  {
    assert Weight(Not(l)) == 2 * Weight(l) && Weight(Not(r)) == 2 * Weight(r);
  }

  lemma DeMorgan(op: Op, l: Expr, r: Expr, env: Env)
    ensures Eval(Bin(Dual(op), Not(l), Not(r)), env) == 2 - Eval(Bin(op, l, r), env)
  {
    assert Eval(Not(l), env) == 2 - Eval(l, env) && Eval(Not(r), env) == 2 - Eval(r, env);
  }

  /** A bool compared with y, m or n. */
  function TransformCmp(rel: Rel, a: Symbol, b: Symbol): (r: Expr)
    ensures Weight(r) <= 2
  {
    if rel.Eq? && Type(a).Boolean? && b == NO then Not(Sym(a))
    else if rel.Eq? && Type(a).Boolean? && b == MOD then Sym(NO)
    else if rel.Eq? && Type(a).Boolean? && b == YES then Sym(a)
    else if rel.Ne? && Type(a).Boolean? && b == NO then Sym(a)
    else if rel.Ne? && Type(a).Boolean? && b == MOD then Sym(YES)
    else if rel.Ne? && Type(a).Boolean? && b == YES then Not(Sym(a))
    else Cmp(rel, a, b)
  }

  /** expr_transform */
  function Transform(e: Expr): (r: Expr)
    ensures Weight(r) <= Weight(e)
    decreases Weight(e)
  {
    match e
    case Sym(_) => e
    case Cmp(rel, a, b) => TransformCmp(rel, a, b)
    case Bin(op, l, r) => Bin(op, Transform(l), Transform(r))
    case Not(x) =>
      var y := Transform(x);
      match y
      case Not(z) => Transform(z)
      case Cmp(rel, a, b) => Cmp(Opposite(rel), a, b)
      case Bin(op, l, r) =>
        DeMorganWeight(op, l, r);
        Transform(Bin(Dual(op), Not(l), Not(r)))
      case Sym(s) =>
        if s == YES then Sym(NO)
        else if s == MOD then Sym(MOD)
        else if s == NO then Sym(YES)
        else Not(y)
  }

  /** Nothing is left to be rewritten. */
  predicate Normal(e: Expr) {
    match e
    case Sym(_) => true
    case Cmp(rel, a, b) => Type(a).Boolean? && (rel.Eq? || rel.Ne?) ==> b !in YMN
    case Not(x) => x.Sym? && x.s !in YMN
    case Bin(_, l, r) => Normal(l) && Normal(r)
  }

  /** The result is in normal form, so negation stands on symbols only, and has
      the same value. */
  lemma {:induction false} TransformOk(e: Expr)
    ensures Normal(Transform(e))
    ensures forall env :: Sound(env) ==> Eval(Transform(e), env) == Eval(e, env)
    decreases Weight(e)
  {
    match e
    case Sym(_) =>
    case Cmp(rel, a, b) => CmpOk(rel, a, b);
    case Bin(op, l, r) =>
      TransformOk(l);
      TransformOk(r);
    case Not(x) =>
      TransformOk(x);
      match Transform(x) {
        case Not(z) => TransformOk(z);
        case Cmp(_, _, _) =>
        case Bin(op, l, r) =>
          DeMorganWeight(op, l, r);
          TransformOk(Bin(Dual(op), Not(l), Not(r)));
          forall env ensures Eval(Bin(Dual(op), Not(l), Not(r)), env) == 2 - Eval(Bin(op, l, r), env) {
            DeMorgan(op, l, r, env);
          }
        case Sym(_) =>
      }
  }

  lemma CmpOk(rel: Rel, a: Symbol, b: Symbol)
    ensures Normal(TransformCmp(rel, a, b))
    ensures forall env :: Sound(env) ==> Eval(TransformCmp(rel, a, b), env) == Eval(Cmp(rel, a, b), env)
  {
    forall env | Sound(env) ensures Eval(TransformCmp(rel, a, b), env) == Eval(Cmp(rel, a, b), env) {
      if Type(a).Boolean? && b in YMN {
        CompareConst(a, b, env);
        MatchesYmn(env.tri(a), env.parse);
      }
    }
  }

  /** A second run changes nothing. */
  lemma {:induction false} NormalStays(e: Expr)
    requires Normal(e)
    ensures Transform(e) == e && Flat(e)
  {
    if e.Bin? {
      NormalStays(e.l);
      NormalStays(e.r);
    }
  }

  lemma TransformTwice(e: Expr)
    ensures Transform(Transform(e)) == Transform(e) && Flat(Transform(e))
  {
    TransformOk(e);
    NormalStays(Transform(e));
  }

  // ----- dropping "!= n" -----

  /** expr_trans_bool */
  function TransBool(e: Expr): Expr {
    match e
    case Sym(_) => e
    case Not(x) => Not(TransBool(x))
    case Bin(op, l, r) => Bin(op, TransBool(l), TransBool(r))
    case Cmp(rel, a, b) => if rel.Ne? && Type(a).Tristate? && b == NO then Sym(a) else e
  }

  /** Where negation stands on symbols only, the value may drop from y to m but
      is n exactly when it was n. */
  lemma {:induction false} TransBoolKeepsN(e: Expr, env: Env)
    requires Flat(e) && Sound(env)
    ensures Eval(TransBool(e), env) <= Eval(e, env)
    ensures Eval(TransBool(e), env) == 0 <==> Eval(e, env) == 0
  {
    match e
    case Sym(_) =>
    case Not(_) =>
    case Bin(_, l, r) =>
      TransBoolKeepsN(l, env);
      TransBoolKeepsN(r, env);
    case Cmp(_, a, b) =>
      if Type(a).Tristate? && b == NO {
        CompareConst(a, b, env);
        MatchesYmn(env.tri(a), env.parse);
      }
  }

  /** Below a negation it would not: !(A != n) is n for an A that is m, but !A is
      m.  It is so for no other value of A. */
  lemma TransBoolNegated(s: Symbol, env: Env)
    requires Type(s).Tristate? && Sound(env)
    ensures var e := Not(Cmp(Ne, s, NO));
      (Eval(TransBool(e), env) == 0 <==> Eval(e, env) == 0) <==> env.tri(s) != 1
  {
    CompareConst(s, NO, env);
    MatchesYmn(env.tri(s), env.parse);
  }

  /** expr_alloc_and, where either may be missing */
  function AllocAnd(a: MaybeExpr, b: MaybeExpr): (r: MaybeExpr)
    ensures forall env :: EvalMaybe(r, env) == if EvalMaybe(a, env) < EvalMaybe(b, env) then EvalMaybe(a, env) else EvalMaybe(b, env)
  {
    if a.Null? then b else if b.Null? then a else Some(Bin(And, a.e, b.e))
  }

  function TransformMaybe(e: MaybeExpr): MaybeExpr { if e.Null? then Null else Some(Transform(e.e)) }

  /** The dependency of a menu entry that is not a tristate, as menu_finalize
      computes it: inherited dependency and own condition, rewritten, joined and
      simplified, still allow the entry exactly when both did, whenever the
      constants in them can be told apart. */
  method MenuDependency(basedep: MaybeExpr, dep: MaybeExpr) returns (r: MaybeExpr)
    requires basedep.Some? ==> Flat(basedep.e)
    ensures r.Null? <==> basedep.Null? && dep.Null?
    ensures forall env :: Sound(env) && Clear(MaybeRights(AllocAnd(basedep, TransformMaybe(dep))) + YMN, env.parse) ==>
      (EvalMaybe(r, env) == 0 <==> EvalMaybe(basedep, env) == 0 || EvalMaybe(dep, env) == 0)
    ensures MaybeRights(AllocAnd(basedep, TransformMaybe(dep))) <= YMN ==> forall env :: Sound(env) ==>
      (EvalMaybe(r, env) == 0 <==> EvalMaybe(basedep, env) == 0 || EvalMaybe(dep, env) == 0)
  {
    if dep.Some? {
      TransformOk(dep.e);
      TransformTwice(dep.e);
    }
    var e := AllocAnd(basedep, TransformMaybe(dep));
    var f := ExprEliminateDups(e);
    r := if f.Null? then Null else Some(TransBool(f.e));
    forall env | Sound(env) && Clear(MaybeRights(e) + YMN, env.parse)
      ensures EvalMaybe(r, env) == 0 <==> EvalMaybe(basedep, env) == 0 || EvalMaybe(dep, env) == 0
    {
      if f.Some? { TransBoolKeepsN(f.e, env); }
    }
    forall env | Sound(env) ensures MaybeRights(e) <= YMN ==> Clear(MaybeRights(e) + YMN, env.parse) {
      YmnClear(env.parse);
      if MaybeRights(e) <= YMN { assert MaybeRights(e) + YMN == YMN; }
    }
  }

  function MaybeRights(e: MaybeExpr): set<Symbol> { if e.Null? then {} else Rights(e.e) }
}
