/** Expressions of the Kconfig language (scripts/kconfig/kconfiglib.py): values and simplifying constructors. */
module KconfigExpr {

  /** Symbols by identity; n, m, y and MODULES are special to the evaluator. */
  datatype Sym = N | M | Y | Modules | Other(id: nat)

  datatype RelOp = Equal | Unequal | Less | LessEqual | Greater | GreaterEqual

  datatype Expr = Leaf(sym: Sym) | And(l: Expr, r: Expr) | Or(l: Expr, r: Expr) | Not(e: Expr)
                | Rel(op: RelOp, a: Sym, b: Sym)

  type Tri = v: int | 0 <= v <= 2

  function Min(a: Tri, b: Tri): Tri { if a < b then a else b }

  function Max(a: Tri, b: Tri): Tri { if a > b then a else b }

  /** An assignment: the tristate value of each symbol, and how two symbols compare in a relation. */
  datatype Env = Env(tri: Sym -> Tri, comp: (Sym, Sym) -> int)

  ghost predicate Proper(env: Env) { env.tri(N) == 0 && env.tri(M) == 1 && env.tri(Y) == 2 }

  predicate Holds(op: RelOp, comp: int) {
    match op
    case Equal => comp == 0
    case Unequal => comp != 0
    case Less => comp < 0
    case LessEqual => comp <= 0
    case Greater => comp > 0
    case GreaterEqual => comp >= 0
  }

  /** The operators are those of the order that is compared by subtraction. */
  lemma HoldsIsOrder(a: int, b: int)
    ensures Holds(Less, a - b) <==> a < b
    ensures Holds(Greater, a - b) <==> Holds(Less, b - a)
    ensures Holds(Equal, a - b) <==> !Holds(Less, a - b) && !Holds(Greater, a - b)
    ensures Holds(Unequal, a - b) <==> !Holds(Equal, a - b)
    ensures Holds(LessEqual, a - b) <==> !Holds(Greater, a - b)
    ensures Holds(GreaterEqual, a - b) <==> !Holds(Less, a - b)
  {
  }

  /** What an expression means: AND is the minimum, OR the maximum. */
  function Value(e: Expr, env: Env): Tri {
    match e
    case Leaf(s) => env.tri(s)
    case And(l, r) => Min(Value(l, env), Value(r, env))
    case Or(l, r) => Max(Value(l, env), Value(r, env))
    case Not(x) => 2 - Value(x, env)
    case Rel(op, a, b) => if Holds(op, env.comp(a, b)) then 2 else 0
  }

  /** expr_value, which does not look at the right operand when the left one decides. */
  function ExprValue(e: Expr, env: Env): Tri {
    match e
    case Leaf(s) => env.tri(s)
    case And(l, r) => var v1 := ExprValue(l, env); if v1 == 0 then 0 else Min(v1, ExprValue(r, env))
    case Or(l, r) => var v1 := ExprValue(l, env); if v1 == 2 then 2 else Max(v1, ExprValue(r, env))
    case Not(x) => 2 - ExprValue(x, env)
    case Rel(op, a, b) => if Holds(op, env.comp(a, b)) then 2 else 0
  }

  lemma {:induction false} ShortCircuitIsExact(e: Expr, env: Env)
    ensures ExprValue(e, env) == Value(e, env)
  {
    match e
    case Leaf(_) =>
    case And(l, r) => ShortCircuitIsExact(l, env); ShortCircuitIsExact(r, env);
    case Or(l, r) => ShortCircuitIsExact(l, env); ShortCircuitIsExact(r, env);
    case Not(x) => ShortCircuitIsExact(x, env);
    case Rel(_, _, _) =>
  }

  /** _make_and */
  function MakeAnd(e1: Expr, e2: Expr): Expr {
    if e1 == Leaf(Y) then e2
    else if e2 == Leaf(Y) then e1
    else if e1 == Leaf(N) || e2 == Leaf(N) then Leaf(N)
    else And(e1, e2)
  }

  /** _make_or */
  function MakeOr(e1: Expr, e2: Expr): Expr {
    if e1 == Leaf(N) then e2
    else if e2 == Leaf(N) then e1
    else if e1 == Leaf(Y) || e2 == Leaf(Y) then Leaf(Y)
    else Or(e1, e2)
  }

  /** The simplifying constructors mean minimum and maximum. */
  lemma MakeAndIsMin(e1: Expr, e2: Expr, env: Env)
    requires Proper(env)
    ensures Value(MakeAnd(e1, e2), env) == Min(Value(e1, env), Value(e2, env))
  {
    if e1 == Leaf(Y) || e2 == Leaf(Y) { assert Value(Leaf(Y), env) == 2; }
    else if e1 == Leaf(N) || e2 == Leaf(N) { assert Value(Leaf(N), env) == 0; }
  }

  lemma MakeOrIsMax(e1: Expr, e2: Expr, env: Env)
    requires Proper(env)
    ensures Value(MakeOr(e1, e2), env) == Max(Value(e1, env), Value(e2, env))
  {
    if e1 == Leaf(N) || e2 == Leaf(N) { assert Value(Leaf(N), env) == 0; }
    else if e1 == Leaf(Y) || e2 == Leaf(Y) { assert Value(Leaf(Y), env) == 2; }
  }

  /** An expression without a constant n or y under AND and OR. */
  predicate Simplified(e: Expr) {
    match e
    case Leaf(_) => true
    case And(l, r) => !Trivial(l) && !Trivial(r) && Simplified(l) && Simplified(r)
    case Or(l, r) => !Trivial(l) && !Trivial(r) && Simplified(l) && Simplified(r)
    case Not(x) => Simplified(x)
    case Rel(_, _, _) => true
  }

  predicate Trivial(e: Expr) { e == Leaf(N) || e == Leaf(Y) }

  /** They never build a node with a constant operand. */
  lemma SimplifyRemovesConstants(e1: Expr, e2: Expr)
    requires Simplified(e1) && Simplified(e2)
    ensures Simplified(MakeAnd(e1, e2)) && Simplified(MakeOr(e1, e2))
  {
  }
}
