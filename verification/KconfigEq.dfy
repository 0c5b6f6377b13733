/** Comparing expressions and removing common operands. */
module KconfigEq {
  import opened KconfigExpr

  predicate IsYn(e: Expr) { e == Sym(YES) || e == Sym(NO) }

  /** y and n removed as operands of && and ||. */
  function EliminateYn(e: Expr): Expr {
    match e
    case Bin(op, l, r) =>
      var x, y := EliminateYn(l), EliminateYn(r);
      if x == Sym(Zero(op)) then x
      else if x == Sym(Unit(op)) then y
      else if y == Sym(Zero(op)) then y
      else if y == Sym(Unit(op)) then x
      else Bin(op, x, y)
    case _ => e
  }

  /** Some operand of && or ||, outside of !, is y or n. */
  predicate ConstIn(e: Expr) {
    e.Bin? && (IsYn(e.l) || IsYn(e.r) || ConstIn(e.l) || ConstIn(e.r))
  }

  /** Afterwards no operand is y or n; an expression that had one got smaller. */
  lemma {:induction false} EliminateYnOk(e: Expr)
    ensures Size(EliminateYn(e)) <= Size(e) && !ConstIn(EliminateYn(e))
    ensures ConstIn(e) ==> Size(EliminateYn(e)) < Size(e)
    ensures Rights(EliminateYn(e)) <= Rights(e) && (Flat(e) ==> Flat(EliminateYn(e)))
    ensures forall env :: Sound(env) ==> Eval(EliminateYn(e), env) == Eval(e, env)
  {
    forall env | Sound(env) ensures Eval(EliminateYn(e), env) == Eval(e, env) {
      EliminateYnValue(e, env);
    }
    if e.Bin? {
      EliminateYnOk(e.l);
      EliminateYnOk(e.r);
      hide Sound, Eval;
    }
  }

  lemma {:induction false} EliminateYnValue(e: Expr, env: Env)
    requires Sound(env)
    ensures Eval(EliminateYn(e), env) == Eval(e, env)
  {
    if e.Bin? {
      EliminateYnValue(e.l, env);
      EliminateYnValue(e.r, env);
    }
  }

  predicate Is(e: Expr, op: Op) { e.Bin? && e.op == op }

  /** expr_eq: equality up to the order and the repetition of operands. */
  function ExprEq(e1: Expr, e2: Expr): bool
    decreases Size(e1) + Size(e2), 2
  {
    match e1
    case Sym(_) => e1 == e2
    case Cmp(_, _, _) => e1 == e2
    case Not(x) => e2.Not? && ExprEq(x, e2.e)
    case Bin(op, _, _) =>
      Is(e2, op) &&
      var f := EliminateEq(e1, e2);
      f.0.Sym? && f.0 == f.1
  }

  /** __expr_eliminate_eq: equal leaves of the op trees e1 and e2 become units. */
  function EliminateLeaves(op: Op, e1: Expr, e2: Expr): (r: (Expr, Expr))
    ensures Size(r.0) <= Size(e1) && Size(r.1) <= Size(e2)
    ensures Is(e1, op) <==> Is(r.0, op)
    ensures Is(e2, op) <==> Is(r.1, op)
    decreases Size(e1) + Size(e2), if Is(e1, op) || Is(e2, op) then 0 else 3
  {
    if Is(e1, op) then
      var f := EliminateLeaves(op, e1.l, e2);
      var g := EliminateLeaves(op, e1.r, f.1);
      (Bin(op, f.0, g.0), g.1)
    else if Is(e2, op) then
      var f := EliminateLeaves(op, e1, e2.l);
      var g := EliminateLeaves(op, f.0, e2.r);
      (g.0, Bin(op, f.1, g.1))
    else if e1 == e2 && IsYn(e1) then (e1, e2)
    else if !ExprEq(e1, e2) then (e1, e2)
    else (Sym(Unit(op)), Sym(Unit(op)))
  }

  /** expr_eliminate_eq */
  function EliminateEq(e1: Expr, e2: Expr): (Expr, Expr)
    decreases Size(e1) + Size(e2), 1
  {
    var f := if e1.Bin? then EliminateLeaves(e1.op, e1, e2) else (e1, e2);
    var g := if f.1.Bin? && !Is(f.0, f.1.op) then EliminateLeaves(f.1.op, f.0, f.1) else f;
    (EliminateYn(g.0), EliminateYn(g.1))
  }

  /** Equal expressions have equal values. */
  lemma {:induction false} ExprEqSound(e1: Expr, e2: Expr, env: Env)
    requires Sound(env) && ExprEq(e1, e2)
    ensures Eval(e1, env) == Eval(e2, env)
    decreases Size(e1) + Size(e2), 2
  {
    match e1
    case Sym(_) =>
    case Cmp(_, _, _) =>
    case Not(x) => ExprEqSound(x, e2.e, env);
    case Bin(_, _, _) => var c := EliminateEqFactor(e1, e2, env);
  }

  /** A common operand of value c is taken off both trees. */
  lemma {:induction false} LeavesFactor(op: Op, e1: Expr, e2: Expr, env: Env) returns (c: Tri)
    requires Sound(env)
    ensures Eval(e1, env) == Apply(op, c, Eval(EliminateLeaves(op, e1, e2).0, env))
    ensures Eval(e2, env) == Apply(op, c, Eval(EliminateLeaves(op, e1, e2).1, env))
    decreases Size(e1) + Size(e2), if Is(e1, op) || Is(e2, op) then 0 else 3
  {
    hide Apply, Sound, ExprEq;
    if Is(e1, op) {
      var f := EliminateLeaves(op, e1.l, e2);
      var g := EliminateLeaves(op, e1.r, f.1);
      var c1 := LeavesFactor(op, e1.l, e2, env);
      var c2 := LeavesFactor(op, e1.r, f.1, env);
      Regroup(op, c1, c2, Eval(f.0, env), Eval(g.0, env));
      Nested(op, c1, c2, Eval(g.1, env));
      c := Apply(op, c1, c2);
    } else if Is(e2, op) {
      var f := EliminateLeaves(op, e1, e2.l);
      var g := EliminateLeaves(op, f.0, e2.r);
      var c1 := LeavesFactor(op, e1, e2.l, env);
      var c2 := LeavesFactor(op, f.0, e2.r, env);
      Regroup(op, c1, c2, Eval(f.1, env), Eval(g.1, env));
      Nested(op, c1, c2, Eval(g.0, env));
      c := Apply(op, c1, c2);
    } else if (e1 == e2 && IsYn(e1)) || !ExprEq(e1, e2) {
      c := UnitValue(op, env);
    } else {
      ExprEqSound(e1, e2, env);
      c := Eval(e1, env);
      var u := UnitValue(op, env);
    }
  }

  lemma UnitValue(op: Op, env: Env) returns (u: Tri)
    requires Sound(env)
    ensures u == Eval(Sym(Unit(op)), env) && forall x: Tri :: Apply(op, u, x) == x && Apply(op, x, u) == x
  {
    u := env.tri(Unit(op));
  }

  lemma Regroup(op: Op, c: Tri, d: Tri, x: Tri, y: Tri)
    ensures Apply(op, Apply(op, c, x), Apply(op, d, y)) == Apply(op, Apply(op, c, d), Apply(op, x, y))
  {
  }

  lemma Nested(op: Op, c: Tri, d: Tri, x: Tri)
    ensures Apply(op, c, Apply(op, d, x)) == Apply(op, Apply(op, c, d), x)
  {
  }

  /** Factoring out: one and the same function of the value connects each
      expression with what is left of it. */
  datatype Factor = Factor(op1: Op, c1: Tri, op2: Op, c2: Tri)

  function Times(k: Factor, x: Tri): Tri {
    Apply(k.op1, k.c1, Apply(k.op2, k.c2, x))
  }

  lemma {:induction false} EliminateEqFactor(e1: Expr, e2: Expr, env: Env) returns (k: Factor)
    requires Sound(env)
    ensures Eval(e1, env) == Times(k, Eval(EliminateEq(e1, e2).0, env))
    ensures Eval(e2, env) == Times(k, Eval(EliminateEq(e1, e2).1, env))
    ensures e1.Bin? && Is(e2, e1.op) ==> k.op1 == e1.op && forall x :: Times(k, x) == Apply(k.op1, k.c1, x)
    decreases Size(e1) + Size(e2), 1
  {
    var f := if e1.Bin? then EliminateLeaves(e1.op, e1, e2) else (e1, e2);
    var g := if f.1.Bin? && !Is(f.0, f.1.op) then EliminateLeaves(f.1.op, f.0, f.1) else f;
    EliminateYnOk(g.0);
    EliminateYnOk(g.1);
    k := Factor(And, 2, And, 2);
    if e1.Bin? {
      var c := LeavesFactor(e1.op, e1, e2, env);
      k := k.(op1 := e1.op, c1 := c);
    }
    if f.1.Bin? && !Is(f.0, f.1.op) {
      var c := LeavesFactor(f.1.op, f.0, f.1, env);
      k := k.(op2 := f.1.op, c2 := c);
    }
  }

  function EliminateEqMaybe(e1: MaybeExpr, e2: MaybeExpr): (MaybeExpr, MaybeExpr) {
    if e1.Null? || e2.Null? then (e1, e2)
    else
      var f := EliminateEq(e1.e, e2.e);
      (Some(f.0), Some(f.1))
  }

  /** expr_is_yes */
  predicate IsYes(e: MaybeExpr) { e.Null? || e.e == Sym(YES) }

  /** The submenu test: when the second expression reduces to y, the first one
      never exceeds it, so whatever the first allows the second allows. */
  lemma Superset(e1: MaybeExpr, e2: MaybeExpr, env: Env)
    requires Sound(env) && IsYes(EliminateEqMaybe(e1, e2).1)
    ensures EvalMaybe(e1, env) <= EvalMaybe(e2, env)
  {
    if e1.Some? && e2.Some? {
      var k := EliminateEqFactor(e1.e, e2.e, env);
    }
  }
}
