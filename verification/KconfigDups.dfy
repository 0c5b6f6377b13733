/** Removing duplicate operands in place.

    A pointer to a cell of an expression is a path from the root, so that two
    pointers may meet in the same tree, as they do here.  A region is a subtree
    of nodes with one operator; what hangs below it are its leaves. */
module KconfigDups {
  import opened KconfigExpr
  import opened KconfigEq
  import opened KconfigJoin

  type Path = seq<bool>

  function Child(e: Expr, right: bool): Expr
    requires e.Bin?
  {
    if right then e.r else e.l
  }

  predicate Has(e: Expr, p: Path) {
    p == [] || (e.Bin? && Has(Child(e, p[0]), p[1..]))
  }

  function At(e: Expr, p: Path): Expr
    requires Has(e, p)
  {
    if p == [] then e else At(Child(e, p[0]), p[1..])
  }

  function Put(e: Expr, p: Path, x: Expr): Expr
    requires Has(e, p)
  {
    if p == [] then x
    else if p[0] then Bin(e.op, e.l, Put(e.r, p[1..], x))
    else Bin(e.op, Put(e.l, p[1..], x), e.r)
  }

  lemma {:induction false} AtAppend(e: Expr, p: Path, q: Path)
    requires Has(e, p) && Has(At(e, p), q)
    ensures Has(e, p + q) && At(e, p + q) == At(At(e, p), q)
  {
    if p == [] {
      assert p + q == q;
    } else {
      AtAppend(Child(e, p[0]), p[1..], q);
      assert (p + q)[0] == p[0] && (p + q)[1..] == p[1..] + q;
    }
  }

  lemma {:induction false} PutAppend(e: Expr, p: Path, q: Path, x: Expr)
    requires Has(e, p) && Has(At(e, p), q)
    ensures Has(e, p + q) && Put(e, p + q, x) == Put(e, p, Put(At(e, p), q, x))
  {
    if p == [] {
      assert p + q == q;
    } else {
      PutAppend(Child(e, p[0]), p[1..], q, x);
      assert (p + q)[0] == p[0] && (p + q)[1..] == p[1..] + q;
    }
  }

  lemma {:induction false} PutTwice(e: Expr, p: Path, x: Expr, y: Expr)
    requires Has(e, p)
    ensures Has(Put(e, p, x), p) && At(Put(e, p, x), p) == x && Put(Put(e, p, x), p, y) == Put(e, p, y)
  {
    if p != [] { PutTwice(Child(e, p[0]), p[1..], x, y); }
  }

  lemma {:induction false} PutSame(e: Expr, p: Path)
    requires Has(e, p)
    ensures Put(e, p, At(e, p)) == e
  {
    if p != [] { PutSame(Child(e, p[0]), p[1..]); }
  }

  // ----- regions -----

  /** q leads from the root of e through nodes with operator op only. */
  predicate Within(op: Op, e: Expr, q: Path)
    ensures Within(op, e, q) ==> Has(e, q)
  {
    q == [] || (Is(e, op) && Within(op, Child(e, q[0]), q[1..]))
  }

  predicate Leaf(op: Op, e: Expr, q: Path) {
    Within(op, e, q) && !Is(At(e, q), op)
  }

  function Nodes(op: Op, e: Expr): nat {
    if Is(e, op) then 1 + Nodes(op, e.l) + Nodes(op, e.r) else 0
  }

  predicate SameShape(op: Op, e: Expr, f: Expr) {
    if Is(e, op) then Is(f, op) && SameShape(op, e.l, f.l) && SameShape(op, e.r, f.r) else !Is(f, op)
  }

  lemma SameShapeSelf(op: Op, e: Expr)
    ensures SameShape(op, e, e)
  {
  }

  lemma {:induction false} SameShapeChain(op: Op, e: Expr, f: Expr, g: Expr)
    requires SameShape(op, e, f) && SameShape(op, f, g)
    ensures SameShape(op, e, g)
  {
    if Is(e, op) {
      SameShapeChain(op, e.l, f.l, g.l);
      SameShapeChain(op, e.r, f.r, g.r);
    }
  }

  lemma {:induction false} ShapeAt(op: Op, e: Expr, f: Expr, q: Path)
    requires SameShape(op, e, f) && Within(op, e, q)
    ensures Within(op, f, q) && Is(At(e, q), op) == Is(At(f, q), op) && Nodes(op, At(f, q)) == Nodes(op, At(e, q))
  {
    if q == [] {
      ShapeNodes(op, e, f);
    } else {
      ShapeAt(op, Child(e, q[0]), Child(f, q[0]), q[1..]);
    }
  }

  lemma {:induction false} ShapeNodes(op: Op, e: Expr, f: Expr)
    requires SameShape(op, e, f)
    ensures Nodes(op, f) == Nodes(op, e)
  {
    if Is(e, op) {
      ShapeNodes(op, e.l, f.l);
      ShapeNodes(op, e.r, f.r);
    }
  }

  lemma {:induction false} WithinStep(op: Op, e: Expr, q: Path, right: bool)
    requires Within(op, e, q) && Is(At(e, q), op)
    ensures Within(op, e, q + [right]) && At(e, q + [right]) == Child(At(e, q), right)
  {
    if q == [] {
      assert q + [right] == [right] && [right][1..] == [];
    } else {
      WithinStep(op, Child(e, q[0]), q[1..], right);
      assert (q + [right])[0] == q[0] && (q + [right])[1..] == q[1..] + [right];
    }
  }

  // ----- replacing one leaf -----

  lemma {:induction false} PutLeaf(op: Op, e: Expr, q: Path, x: Expr)
    requires Leaf(op, e, q) && !Is(x, op)
    ensures SameShape(op, e, Put(e, q, x))
    ensures Size(Put(e, q, x)) == Size(e) - Size(At(e, q)) + Size(x)
    ensures Rights(Put(e, q, x)) <= Rights(e) + Rights(x) && Rights(At(e, q)) <= Rights(e)
    ensures Size(At(e, q)) <= Size(e) && (q != [] ==> Size(At(e, q)) < Size(e))
    ensures Flat(e) ==> Flat(At(e, q)) && (Flat(x) ==> Flat(Put(e, q, x)))
  {
    if q != [] {
      PutLeaf(op, Child(e, q[0]), q[1..], x);
      SameShapeSelf(op, Child(e, !q[0]));
    }
  }

  /** The other leaves of the region add up to c. */
  lemma {:induction false} LeafValue(op: Op, e: Expr, q: Path, env: Env) returns (c: Tri)
    requires Sound(env) && Within(op, e, q)
    ensures Eval(e, env) == Apply(op, c, Eval(At(e, q), env))
    ensures forall x :: Eval(Put(e, q, x), env) == Apply(op, c, Eval(x, env))
  {
    hide Sound;
    if q == [] {
      c := UnitValue(op, env);
    } else {
      var d := LeafValue(op, Child(e, q[0]), q[1..], env);
      var o := Eval(Child(e, !q[0]), env);
      c := Apply(op, o, d);
      ApplyMoves(op, o, d, Eval(At(e, q), env));
      forall x ensures Eval(Put(e, q, x), env) == Apply(op, c, Eval(x, env)) {
        ApplyMoves(op, o, d, Eval(x, env));
      }
    }
  }

  lemma ApplyMoves(op: Op, x: Tri, y: Tri, z: Tri)
    ensures Apply(op, x, Apply(op, y, z)) == Apply(op, Apply(op, x, y), z) == Apply(op, Apply(op, y, z), x)
  {
  }

  /** Another leaf is not affected. */
  lemma {:induction false} PutElsewhere(op: Op, e: Expr, q1: Path, q2: Path, x: Expr)
    requires Leaf(op, e, q1) && Leaf(op, e, q2) && q1 != q2 && !Is(x, op)
    ensures q1 != [] && q2 != []
    ensures Leaf(op, Put(e, q1, x), q2) && At(Put(e, q1, x), q2) == At(e, q2)
  {
    if q1[0] == q2[0] {
      assert q1 == [q1[0]] + q1[1..] && q2 == [q2[0]] + q2[1..];
      PutElsewhere(op, Child(e, q1[0]), q1[1..], q2[1..], x);
    }
  }

  lemma {:induction false} ConstAt(op: Op, e: Expr, q: Path)
    requires Within(op, e, q) && q != [] && (IsYn(At(e, q)) || ConstIn(At(e, q)))
    ensures ConstIn(e)
  {
    if q[1..] != [] { ConstAt(op, Child(e, q[0]), q[1..]); }
  }

  /** A leaf is simplified by itself. */
  lemma LeafSimplified(op: Op, e: Expr, q: Path, x: Expr)
    requires Leaf(op, e, q) && !Is(x, op) && Simplifies(At(e, q), x)
    ensures SameShape(op, e, Put(e, q, x)) && Simplifies(e, Put(e, q, x))
  {
    PutLeaf(op, e, q, x);
    forall env | Sound(env) && Clear(Rights(e) + YMN, env.parse) ensures Eval(Put(e, q, x), env) == Eval(e, env) {
      ClearLess(Rights(e) + YMN, Rights(At(e, q)) + YMN, env.parse);
      var c := LeafValue(op, e, q, env);
    }
  }

  /** Two leaves become the unit and their join. */
  function Merge(op: Op, e: Expr, q1: Path, q2: Path, t: Expr): Expr
    requires Has(e, q1) && Has(Put(e, q1, Sym(Unit(op))), q2)
  {
    Put(Put(e, q1, Sym(Unit(op))), q2, t)
  }

  lemma MergeOk(op: Op, e: Expr, q1: Path, q2: Path)
    requires Leaf(op, e, q1) && Leaf(op, e, q2) && q1 != q2 && Join(op, At(e, q1), At(e, q2)).Some?
    ensures Has(Put(e, q1, Sym(Unit(op))), q2)
    ensures var f := Merge(op, e, q1, q2, Join(op, At(e, q1), At(e, q2)).e);
      SameShape(op, e, f) && Simplifies(e, f) && ConstIn(f)
  {
    var x1, x2, u := At(e, q1), At(e, q2), Sym(Unit(op));
    var t := Join(op, x1, x2).e;
    var e' := Put(e, q1, u);
    JoinOk(op, x1, x2);
    hide Join, Clear, Sound;
    PutElsewhere(op, e, q1, q2, u);
    PutLeaf(op, e, q1, u);
    PutLeaf(op, e, q2, u);
    PutLeaf(op, e', q2, t);
    PutTwice(e, q1, u, u);
    ShapeAt(op, e, e', q1);
    PutElsewhere(op, e', q2, q1, t);
    var f := Put(e', q2, t);
    SameShapeChain(op, e, e', f);
    ConstAt(op, f, q1);
    forall env | Sound(env) && Clear(Rights(e) + YMN, env.parse) ensures Eval(f, env) == Eval(e, env) {
      MergeValue(op, e, q1, q2, t, env);
    }
  }

  lemma MergeValue(op: Op, e: Expr, q1: Path, q2: Path, t: Expr, env: Env)
    requires Leaf(op, e, q1) && Leaf(op, e, q2) && q1 != q2 && Join(op, At(e, q1), At(e, q2)) == Some(t)
    requires Leaf(op, Put(e, q1, Sym(Unit(op))), q2) && At(Put(e, q1, Sym(Unit(op))), q2) == At(e, q2)
    requires Sound(env) && Clear(Rights(e) + YMN, env.parse)
    ensures Eval(Merge(op, e, q1, q2, t), env) == Eval(e, env)
  {
    var x1, x2, u := At(e, q1), At(e, q2), Sym(Unit(op));
    JoinOk(op, x1, x2);
    PutLeaf(op, e, q1, u);
    PutLeaf(op, e, q2, u);
    ClearLess(Rights(e) + YMN, Rights(x1) + Rights(x2) + YMN, env.parse);
    hide *;
    var c := LeafValue(op, e, q1, env);
    var d := LeafValue(op, Put(e, q1, u), q2, env);
    var v := UnitValue(op, env);
    MergeArithmetic(op, c, d, v, Eval(x1, env), Eval(x2, env));
    MergeIs(op, e, q1, q2, t);
  }

  lemma MergeIs(op: Op, e: Expr, q1: Path, q2: Path, t: Expr)
    requires Has(e, q1) && Has(Put(e, q1, Sym(Unit(op))), q2)
    ensures Merge(op, e, q1, q2, t) == Put(Put(e, q1, Sym(Unit(op))), q2, t)
  {
  }

  lemma MergeArithmetic(op: Op, c: Tri, d: Tri, u: Tri, x1: Tri, x2: Tri)
    requires Apply(op, d, x2) == Apply(op, c, u) && forall x: Tri :: Apply(op, u, x) == x && Apply(op, x, u) == x
    ensures Apply(op, d, Apply(op, x1, x2)) == Apply(op, c, x1)
  {
    ApplyMoves(op, d, x2, x1);
  }

  // ----- the passes over the tree -----

  /** What one pass over a region does to it: count tells whether anything was
      joined, and if so, an operand y or n is left behind. */
  ghost predicate Worked(op: Op, e: Expr, f: Expr, count: nat, count': nat) {
    && SameShape(op, e, f) && Simplifies(e, f) && count <= count'
    && (count == count' ==> e == f)
    && (count < count' ==> ConstIn(f))
  }

  lemma WorkedNot(op: Op, e: Expr, count: nat)
    ensures Worked(op, e, e, count, count)
  {
    SameShapeSelf(op, e);
  }

  lemma WorkedChain(op: Op, e: Expr, f: Expr, g: Expr, count: nat, count1: nat, count2: nat)
    requires Worked(op, e, f, count, count1) && Worked(op, f, g, count1, count2)
    ensures Worked(op, e, g, count, count2)
  {
    SameShapeChain(op, e, f, g);
    SimplifiesChain(e, f, g);
    hide SameShape, Simplifies, ConstIn;
  }

  lemma WorkedLeaf(op: Op, e: Expr, q: Path, x: Expr, count: nat, count': nat)
    requires Leaf(op, e, q) && q != [] && At(e, q).Bin? && Worked(At(e, q).op, At(e, q), x, count, count')
    ensures Worked(op, e, Put(e, q, x), count, count')
    ensures Leaf(op, Put(e, q, x), q) && At(Put(e, q, x), q) == x
  {
    PutTwice(e, q, x, x);
    LeafSimplified(op, e, q, x);
    PutSame(e, q);
    ShapeAt(op, e, Put(e, q, x), q);
    if count < count' { ConstAt(op, Put(e, q, x), q); }
  }

  /** Nothing about the leaves q1 and q2 is left to be done. */
  ghost predicate Done(op: Op, e: Expr, q1: Path, q2: Path)
    requires Leaf(op, e, q1) && Leaf(op, e, q2)
  {
    q1 != q2 ==> Join(op, At(e, q1), At(e, q2)).Null?
  }

  /** Nothing is left to be done about the leaves below q1 and those below q2. */
  ghost predicate AllDone(op: Op, e: Expr, q1: Path, q2: Path) {
    forall a, b :: q1 <= a && q2 <= b && Leaf(op, e, a) && Leaf(op, e, b) ==> Done(op, e, a, b)
  }

  lemma BelowLeft(op: Op, e: Expr, q: Path, a: Path)
    requires Within(op, e, q) && q <= a && Leaf(op, e, a)
    ensures Is(At(e, q), op) ==> q + [false] <= a || q + [true] <= a
    ensures !Is(At(e, q), op) ==> a == q
  {
    if a == q {
    } else {
      assert a == q + a[|q|..];
      AtWithin(op, e, q, a[|q|..]);
    }
  }

  lemma {:induction false} AtWithin(op: Op, e: Expr, p: Path, q: Path)
    requires Within(op, e, p) && Within(op, e, p + q)
    ensures Within(op, At(e, p), q)
  {
    if p == [] {
      assert p + q == q;
    } else {
      assert (p + q)[0] == p[0] && (p + q)[1..] == p[1..] + q;
      AtWithin(op, Child(e, p[0]), p[1..], q);
    }
  }

  lemma AllDoneFirst(op: Op, e: Expr, q1: Path, q2: Path)
    requires Within(op, e, q1) && Is(At(e, q1), op) && AllDone(op, e, q1 + [false], q2) && AllDone(op, e, q1 + [true], q2)
    ensures AllDone(op, e, q1, q2)
  {
    forall a, b | q1 <= a && q2 <= b && Leaf(op, e, a) && Leaf(op, e, b) ensures Done(op, e, a, b) {
      BelowLeft(op, e, q1, a);
    }
  }

  lemma AllDoneSecond(op: Op, e: Expr, q1: Path, q2: Path)
    requires Within(op, e, q2) && Is(At(e, q2), op) && AllDone(op, e, q1, q2 + [false]) && AllDone(op, e, q1, q2 + [true])
    ensures AllDone(op, e, q1, q2)
  {
    forall a, b | q1 <= a && q2 <= b && Leaf(op, e, a) && Leaf(op, e, b) ensures Done(op, e, a, b) {
      BelowLeft(op, e, q2, b);
    }
  }

  lemma AllDoneLeaves(op: Op, e: Expr, q1: Path, q2: Path)
    requires Leaf(op, e, q1) && Leaf(op, e, q2) && Done(op, e, q1, q2)
    ensures AllDone(op, e, q1, q2)
  {
    forall a, b | q1 <= a && q2 <= b && Leaf(op, e, a) && Leaf(op, e, b) ensures Done(op, e, a, b) {
      BelowLeft(op, e, q1, a);
      BelowLeft(op, e, q2, b);
    }
  }

  class Tree {
    var root: Expr
    /** trans_count: how many simplifications were made. */
    var count: nat

    constructor (e: Expr)
      ensures root == e
    {
      root, count := e, 0;
    }

    /** __expr_eliminate_eq on two trees in place: from the cell at p1 here and
        the one at p2 there, equal leaves are replaced in both. */
    method EliminateCommon(op: Op, p1: Path, that: Tree, p2: Path)
      requires this != that && Has(root, p1) && Has(that.root, p2)
      modifies this, that
      ensures var f := EliminateLeaves(op, old(At(root, p1)), old(At(that.root, p2)));
        root == Put(old(root), p1, f.0) && that.root == Put(old(that.root), p2, f.1)
      decreases Size(At(root, p1)) + Size(At(that.root, p2))
    {
      ghost var e, g := root, that.root;
      var e1, e2 := At(root, p1), At(that.root, p2);
      PutSame(e, p1);
      PutSame(g, p2);
      if Is(e1, op) {
        ghost var f1 := EliminateLeaves(op, e1.l, e2);
        ghost var f2 := EliminateLeaves(op, e1.r, f1.1);
        ChildPlace(e, p1, f1.0, f2.0);
        EliminateCommon(op, p1 + [false], that, p2);
        PutTwice(g, p2, f1.1, f2.1);
        EliminateCommon(op, p1 + [true], that, p2);
      } else if Is(e2, op) {
        ghost var f1 := EliminateLeaves(op, e1, e2.l);
        ghost var f2 := EliminateLeaves(op, f1.0, e2.r);
        ChildPlace(g, p2, f1.1, f2.1);
        EliminateCommon(op, p1, that, p2 + [false]);
        PutTwice(e, p1, f1.0, f2.0);
        EliminateCommon(op, p1, that, p2 + [true]);
      } else if e1 == e2 && IsYn(e1) {
      } else if ExprEq(e1, e2) {
        count := count + 1;
        root := Put(root, p1, Sym(Unit(op)));
        that.root := Put(that.root, p2, Sym(Unit(op)));
      }
    }

    /** expr_eliminate_eq in place */
    method EliminateEqual(that: Tree)
      requires this != that
      modifies this, that
      ensures (root, that.root) == EliminateEq(old(root), old(that.root))
    {
      if root.Bin? {
        EliminateCommon(root.op, [], that, []);
      }
      if that.root.Bin? && !Is(root, that.root.op) {
        EliminateCommon(that.root.op, [], that, []);
      }
      root := EliminateYn(root);
      that.root := EliminateYn(that.root);
    }

    /** expr_eliminate_dups1: joins every leaf of the region at r below q1 with
        every leaf below q2. */
    method EliminateDups1(op: Op, r: Path, q1: Path, q2: Path, ghost n: nat)
      requires Has(root, r) && Within(op, At(root, r), q1) && Within(op, At(root, r), q2) && Size(At(root, r)) <= n
      modifies this
      ensures Has(root, r) && root == Put(old(root), r, At(root, r))
      ensures Worked(op, old(At(root, r)), At(root, r), old(count), count)
      ensures count == old(count) ==> AllDone(op, At(root, r), q1, q2)
      decreases n, Nodes(op, At(At(root, r), q1)) + Nodes(op, At(At(root, r), q2))
    {
      ghost var e, c0 := At(root, r), count;
      AtAppend(root, r, q1);
      AtAppend(root, r, q2);
      if Is(At(root, r + q1), op) {
        WithinStep(op, e, q1, false);
        WithinStep(op, e, q1, true);
        EliminateDups1(op, r, q1 + [false], q2, n);
        ghost var f, c1 := At(root, r), count;
        ShapeAt(op, e, f, q1 + [true]);
        ShapeAt(op, e, f, q2);
        EliminateDups1(op, r, q1 + [true], q2, n);
        ghost var g := At(root, r);
        WorkedChain(op, e, f, g, c0, c1, count);
        PutTwice(old(root), r, f, g);
        if count == c0 { AllDoneFirst(op, e, q1, q2); }
      } else if Is(At(root, r + q2), op) {
        WithinStep(op, e, q2, false);
        WithinStep(op, e, q2, true);
        EliminateDups1(op, r, q1, q2 + [false], n);
        ghost var f, c1 := At(root, r), count;
        ShapeAt(op, e, f, q2 + [true]);
        ShapeAt(op, e, f, q1);
        EliminateDups1(op, r, q1, q2 + [true], n);
        ghost var g := At(root, r);
        WorkedChain(op, e, f, g, c0, c1, count);
        PutTwice(old(root), r, f, g);
        if count == c0 { AllDoneSecond(op, e, q1, q2); }
      } else if q1 == q2 {
        WorkedNot(op, e, count);
        PutSame(root, r);
        AllDoneLeaves(op, e, q1, q2);
      } else {
        EliminatePair(op, r, q1, q2, n);
      }
    }

    /** Two different leaves. */
    method EliminatePair(op: Op, r: Path, q1: Path, q2: Path, ghost n: nat)
      requires Has(root, r) && Leaf(op, At(root, r), q1) && Leaf(op, At(root, r), q2) && q1 != q2 && Size(At(root, r)) <= n
      modifies this
      ensures Has(root, r) && root == Put(old(root), r, At(root, r))
      ensures Worked(op, old(At(root, r)), At(root, r), old(count), count)
      ensures count == old(count) ==> AllDone(op, At(root, r), q1, q2)
      decreases n, 0, 0
    {
      ghost var e, c0 := At(root, r), count;
      AtAppend(root, r, q1);
      AtAppend(root, r, q2);
      PutElsewhere(op, e, q1, q2, Sym(YES));
      PutLeaf(op, e, q1, Sym(YES));
      WorkedNot(op, e, count);
      PutSame(root, r);
      var e1 := At(root, r + q1);
      if e1.Bin? {
        EliminateDups1(e1.op, r + q1, [], [], n - 1);
        ghost var x := At(root, r + q1);
        PutAppend(old(root), r, q1, x);
        PutTwice(old(root), r, Put(e, q1, x), x);
        WorkedLeaf(op, e, q1, x, c0, count);
        PutElsewhere(op, e, q1, q2, x);
      }
      ghost var f, c1 := At(root, r), count;
      AtAppend(root, r, q1);
      AtAppend(root, r, q2);
      var joined := Join(op, At(root, r + q1), At(root, r + q2));
      if joined.Some? {
        JoinPlace(op, root, r, q1, q2, joined.e);
        root := Put(root, r + q1, Sym(Unit(op)));
        root := Put(root, r + q2, joined.e);
        count := count + 1;
        MergeOk(op, f, q1, q2);
        WorkedChain(op, e, f, At(root, r), c0, c1, count);
        PutTwice(old(root), r, f, At(root, r));
      } else if count == c0 {
        AllDoneLeaves(op, e, q1, q2);
      }
    }

    /** expr_eliminate_dups: passes over the tree until one finds nothing to do. */
    method EliminateDups()
      modifies this
      ensures Simplifies(old(root), root) && count == old(count)
      ensures root.Bin? ==> AllDone(root.op, root, [], [])
    {
      var oldcount := count;
      SimplifiesSelf(root);
      while true
        invariant Simplifies(old(root), root)
        decreases Size(root)
      {
        count := 0;
        ghost var e := root;
        if root.Bin? {
          EliminateDups1(root.op, [], [], [], Size(root));
          SimplifiesChain(old(root), e, root);
        }
        if count == 0 { break; }
        ghost var f := root;
        EliminateYnOk(root);
        root := EliminateYn(root);
        SimplifiesChain(old(root), f, root);
      }
      count := oldcount;
    }
  }

  /** Replacing both children of the node at p, one after the other. */
  lemma ChildPlace(e: Expr, p: Path, l: Expr, r: Expr)
    requires Has(e, p) && At(e, p).Bin?
    ensures Has(e, p + [false]) && At(e, p + [false]) == At(e, p).l
    ensures Has(Put(e, p + [false], l), p + [true]) && At(Put(e, p + [false], l), p + [true]) == At(e, p).r
    ensures Put(Put(e, p + [false], l), p + [true], r) == Put(e, p, Bin(At(e, p).op, l, r))
  {
    var n := At(e, p);
    assert [false][1..] == [] && [true][1..] == [];
    AtAppend(e, p, [false]);
    PutAppend(e, p, [false], l);
    assert Put(n, [false], l) == Bin(n.op, l, n.r);
    PutTwice(e, p, Bin(n.op, l, n.r), Bin(n.op, l, r));
    var e' := Put(e, p, Bin(n.op, l, n.r));
    AtAppend(e', p, [true]);
    PutAppend(e', p, [true], r);
    assert Put(At(e', p), [true], r) == Bin(n.op, l, r);
  }

  /** expr_eliminate_dups on an expression that may be missing */
  method ExprEliminateDups(e: MaybeExpr) returns (f: MaybeExpr)
    ensures e.Null? <==> f.Null?
    ensures e.Some? ==> Simplifies(e.e, f.e) && (f.e.Bin? ==> AllDone(f.e.op, f.e, [], []))
  {
    if e.Null? { return Null; }
    var tree := new Tree(e.e);
    tree.EliminateDups();
    f := Some(tree.root);
  }

  /** Where the two writes of a join end up. */
  lemma JoinPlace(op: Op, e: Expr, r: Path, q1: Path, q2: Path, t: Expr)
    requires Has(e, r) && Leaf(op, At(e, r), q1) && Leaf(op, At(e, r), q2) && q1 != q2
    ensures Has(e, r + q1) && Has(Put(e, r + q1, Sym(Unit(op))), r + q2)
    ensures Has(Put(At(e, r), q1, Sym(Unit(op))), q2)
    ensures var g := Put(Put(e, r + q1, Sym(Unit(op))), r + q2, t);
      Has(g, r) && At(g, r) == Merge(op, At(e, r), q1, q2, t) && g == Put(e, r, At(g, r))
  {
    var u, f := Sym(Unit(op)), At(e, r);
    PutAppend(e, r, q1, u);
    PutElsewhere(op, f, q1, q2, u);
    var e' := Put(e, r, Put(f, q1, u));
    PutTwice(e, r, Put(f, q1, u), Put(Put(f, q1, u), q2, t));
    PutAppend(e', r, q2, t);
    PutTwice(e', r, Put(Put(f, q1, u), q2, t), t);
  }
}
