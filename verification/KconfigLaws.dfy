/**
 What the value of a Kconfig symbol means (the class documentation of Symbol in scripts/kconfig/kconfiglib.py), for every
 configuration and every symbol whose evaluation ends.

 The laws speak of expressions by their meaning (KconfigExpr.Value) in the configuration as a whole: under the assignment
 that gives every symbol the value that it has.
 */
module KconfigLaws {
  import opened KconfigExpr
  import opened KconfigEval
  import opened KconfigDeps
  import opened KconfigEnds
  import opened Options

  /** The assignment behind what is known; what it gives to the unknown does not matter. */
  ghost function EnvOf(c: Config, rd: Reads): Env {
    var tri := (s: Sym) => var v := SymR(c, s, rd); if v.Some? then v.value else 0;
    Env(tri, (a: Sym, b: Sym) => c.comp(a, b, tri(a), tri(b)))
  }

  /** The values of all symbols. */
  ghost function World(c: Config, u: User): Env { EnvOf(c, Vals(c, u)) }

  /** The value of an expression. */
  ghost function In(c: Config, u: User, e: Expr): Tri { Value(e, World(c, u)) }

  ghost predicate ModulesOn(c: Config, u: User) { World(c, u).tri(Modules) != 0 }

  /** The symbol may have the value m: it is declared tristate, and modules are enabled. */
  ghost predicate MayBeM(c: Config, u: User, x: Sym) { c.tristate(x) && ModulesOn(c, u) }

  // ---------------------------------------------------------------------------
  // Evaluation finds the meaning

  /** Whatever is skipped. */
  lemma {:induction false} ExprMeans(c: Config, e: Expr, rd: Reads)
    ensures ExprR(c, e, rd).Some? ==> ExprR(c, e, rd).value == Value(e, EnvOf(c, rd))
  {
    match e
    case Leaf(_) =>
    case And(l, r) => ExprMeans(c, l, rd); ExprMeans(c, r, rd);
    case Or(l, r) => ExprMeans(c, l, rd); ExprMeans(c, r, rd);
    case Not(y) => ExprMeans(c, y, rd);
    case Rel(_, _, _) =>
  }

  /** A symbol has the value that one call gives when it finds the values of all others. */
  lemma ValIsCall(c: Config, u: User, x: Sym)
    requires Ends(c, u, x)
    ensures Val(c, u, x).Some? && TriR(c, u, x, Vals(c, u), Val(c, u, Modules)) == Val(c, u, x)
  {
    hide TriR;
    hide Uses;
    var n: nat :| TriF(c, u, false, n, x).Some?;
    FuelIsVal(c, u, n, x);
    forall y: Sym ensures Refines(Pass(c, u, false, n - 1)(y), Vals(c, u)(y)) { FuelIsVal(c, u, n - 1, y); }
    FuelIsVal(c, u, n - 1, Modules);
    TriRefines(c, u, x, Pass(c, u, false, n - 1), Vals(c, u), TriF(c, u, false, n - 1, Modules), Val(c, u, Modules));
  }

  // ---------------------------------------------------------------------------
  // Visibility

  /** v is the largest of these values; 0 if there are none. */
  ghost predicate IsLargest(c: Config, u: User, es: seq<Expr>, v: Tri) {
    && (forall k | 0 <= k < |es| :: In(c, u, es[k]) <= v)
    && (v == 0 || exists k :: 0 <= k < |es| && In(c, u, es[k]) == v)
  }

  lemma {:induction false} PromptsMean(c: Config, u: User, x: Sym, k: nat)
    requires k <= |c.prompts(x)| && PromptsR(c, x, k, Vals(c, u)).Some?
    ensures IsLargest(c, u, c.prompts(x)[..k], PromptsR(c, x, k, Vals(c, u)).value)
  {
    hide ExprR;
    hide Value;
    hide EnvOf;
    if k > 0 {
      PromptsMean(c, u, x, k - 1);
      ExprMeans(c, c.prompts(x)[k - 1], Vals(c, u));
      var es, es' := c.prompts(x)[..k - 1], c.prompts(x)[..k];
      assert es' == es + [c.prompts(x)[k - 1]];
      assert In(c, u, es'[k - 1]) == ExprR(c, c.prompts(x)[k - 1], Vals(c, u)).value;
      var a := PromptsR(c, x, k - 1, Vals(c, u)).value;
      if a != 0 {
        var j :| 0 <= j < |es| && In(c, u, es[j]) == a;
        assert In(c, u, es'[j]) == a;
      }
    }
  }

  /** The visibility is the largest of the prompt conditions, but y for m if the symbol cannot be m. */
  lemma VisibilityIs(c: Config, u: User, x: Sym) returns (p: Tri)
    requires VisVal(c, u, x).Some?
    ensures IsLargest(c, u, c.prompts(x), p)
    ensures VisVal(c, u, x).value == if p == 1 && !MayBeM(c, u, x) then 2 else p
  {
    hide PromptsR;
    hide IsLargest;
    assert c.prompts(x)[..|c.prompts(x)|] == c.prompts(x);
    PromptsMean(c, u, x, |c.prompts(x)|);
    p := PromptsR(c, x, |c.prompts(x)|, Vals(c, u)).value;
  }

  /** A symbol whose evaluation ends has a visibility. */
  lemma HasVisibility(c: Config, u: User, x: Sym)
    requires Ends(c, u, x)
    ensures VisVal(c, u, x).Some?
  {
    hide VisR;
    hide ExprR;
    hide ImpliedR;
    ValIsCall(c, u, x);
  }

  ghost function Visibility(c: Config, u: User, x: Sym): Tri {
    if VisVal(c, u, x).Some? then VisVal(c, u, x).value else 0
  }

  // ---------------------------------------------------------------------------
  // Values

  /** What becomes of a value m: y, unless the symbol may be m and is not implied by y. */
  ghost function Promoted(c: Config, u: User, x: Sym, v: Tri): Tri {
    if v == 1 && (!MayBeM(c, u, x) || In(c, u, c.weak(x)) == 2) then 2 else v
  }

  /** The user's value counts. */
  ghost predicate UserDecides(c: Config, u: User, x: Sym) { u(x).Some? && Visibility(c, u, x) != 0 }

  /** Default number k is the first whose condition is met; there is none for k == |defaults|. */
  ghost predicate FirstDefault(c: Config, u: User, x: Sym, k: nat) {
    && k <= |c.defaults(x)|
    && (forall j | 0 <= j < k :: In(c, u, c.defaults(x)[j].1) == 0)
    && (k < |c.defaults(x)| ==> In(c, u, c.defaults(x)[k].1) != 0)
  }

  /** The value of that default, no more than its condition; n without one. */
  ghost function DefaultValue(c: Config, u: User, x: Sym, k: nat): Tri {
    if k < |c.defaults(x)| then Min(In(c, u, c.defaults(x)[k].0), In(c, u, c.defaults(x)[k].1)) else 0
  }

  lemma {:induction false} DefaultsMean(c: Config, u: User, x: Sym, j: nat, k: nat)
    requires FirstDefault(c, u, x, k) && j <= k && DefaultsR(c, x, j, Vals(c, u)).Some?
    ensures DefaultsR(c, x, j, Vals(c, u)).value == DefaultValue(c, u, x, k)
    decreases k - j
  {
    hide ExprR;
    hide Value;
    hide EnvOf;
    if j < |c.defaults(x)| {
      ExprMeans(c, c.defaults(x)[j].0, Vals(c, u));
      ExprMeans(c, c.defaults(x)[j].1, Vals(c, u));
      assert ExprR(c, c.defaults(x)[j].1, Vals(c, u)).value == In(c, u, c.defaults(x)[j].1);
      if j < k { DefaultsMean(c, u, x, j + 1, k); }
    }
  }

  lemma SomeFirstDefault(c: Config, u: User, x: Sym) returns (k: nat)
    ensures FirstDefault(c, u, x, k)
  {
    hide In;
    k := 0;
    while k < |c.defaults(x)| && In(c, u, c.defaults(x)[k].1) == 0
      invariant k <= |c.defaults(x)| && forall j | 0 <= j < k :: In(c, u, c.defaults(x)[j].1) == 0
    {
      k := k + 1;
    }
  }

  /** The value before selects and promotion. */
  lemma OwnMeans(c: Config, u: User, x: Sym, k: nat)
    requires FirstDefault(c, u, x, k) && OwnR(c, u, x, Vals(c, u), Val(c, u, Modules)).Some?
    ensures OwnR(c, u, x, Vals(c, u), Val(c, u, Modules)).value ==
            if UserDecides(c, u, x) then Min(u(x).value, Visibility(c, u, x))
            else if In(c, u, c.direct(x)) != 0 then Max(In(c, u, c.weak(x)), DefaultValue(c, u, x, k))
            else DefaultValue(c, u, x, k)
  {
    hide ExprR;
    hide Value;
    hide VisR;
    hide DefaultsR;
    hide FirstDefault;
    hide EnvOf;
    var rd := Vals(c, u);
    if DefaultsR(c, x, 0, rd).Some? { DefaultsMean(c, u, x, 0, k); }
    ExprMeans(c, c.weak(x), rd);
    ExprMeans(c, c.direct(x), rd);
  }

  /** The value of every symbol, in one equation. */
  lemma ValueIs(c: Config, u: User, x: Sym, k: nat)
    requires Ends(c, u, x) && FirstDefault(c, u, x, k)
    ensures Val(c, u, x).Some?
    ensures var own := if UserDecides(c, u, x) then Min(u(x).value, Visibility(c, u, x))
                       else if In(c, u, c.direct(x)) != 0 then Max(In(c, u, c.weak(x)), DefaultValue(c, u, x, k))
                       else DefaultValue(c, u, x, k);
            Val(c, u, x).value == Promoted(c, u, x, Max(In(c, u, c.rev(x)), own))
  {
    hide ExprR;
    hide Value;
    hide OwnR;
    hide UserDecides;
    hide DefaultValue;
    hide FirstDefault;
    ValIsCall(c, u, x);
    var rd := Vals(c, u);
    OwnMeans(c, u, x, k);
    ExprMeans(c, c.rev(x), rd);
    ExprMeans(c, c.weak(x), rd);
  }

  // ---------------------------------------------------------------------------
  // The laws one by one

  /** A select forces: the value is never below that of the reverse dependencies. */
  lemma SelectForces(c: Config, u: User, x: Sym)
    requires Ends(c, u, x)
    ensures Val(c, u, x).Some? && Val(c, u, x).value >= In(c, u, c.rev(x))
  {
    hide In;
    hide UserDecides;
    hide DefaultValue;
    hide FirstDefault;
    var k := SomeFirstDefault(c, u, x);
    ValueIs(c, u, x, k);
  }

  /** Only a tristate symbol can be m, only with modules enabled, and not if it is implied by y. */
  lemma WhenM(c: Config, u: User, x: Sym)
    requires Ends(c, u, x) && Val(c, u, x) == Some(1)
    ensures MayBeM(c, u, x) && In(c, u, c.weak(x)) != 2
  {
    hide In;
    hide UserDecides;
    hide DefaultValue;
    hide FirstDefault;
    var k := SomeFirstDefault(c, u, x);
    ValueIs(c, u, x, k);
  }

  /** A visible symbol that is not selected has the user's value, limited by the visibility. */
  lemma UserValueCounts(c: Config, u: User, x: Sym)
    requires Ends(c, u, x) && UserDecides(c, u, x) && In(c, u, c.rev(x)) == 0
    ensures Val(c, u, x) == Some(Promoted(c, u, x, Min(u(x).value, Visibility(c, u, x))))
  {
    hide In;
    hide DefaultValue;
    hide FirstDefault;
    var k := SomeFirstDefault(c, u, x);
    ValueIs(c, u, x, k);
  }

  /** Without that, and not implied or selected, the first default whose condition is met decides; n if there is none. */
  lemma DefaultCounts(c: Config, u: User, x: Sym, k: nat)
    requires Ends(c, u, x) && !UserDecides(c, u, x) && FirstDefault(c, u, x, k)
    requires In(c, u, c.rev(x)) == 0 && (In(c, u, c.weak(x)) == 0 || In(c, u, c.direct(x)) == 0)
    ensures Val(c, u, x) == Some(Promoted(c, u, x, DefaultValue(c, u, x, k)))
    ensures k == |c.defaults(x)| ==> Val(c, u, x) == Some(0)
  {
    hide In;
    hide FirstDefault;
    ValueIs(c, u, x, k);
  }

  /** An imply raises the default, if the direct dependencies are met and the user has not decided. */
  lemma ImplyRaises(c: Config, u: User, x: Sym, k: nat)
    requires Ends(c, u, x) && !UserDecides(c, u, x) && FirstDefault(c, u, x, k)
    requires In(c, u, c.rev(x)) == 0 && In(c, u, c.direct(x)) != 0
    ensures Val(c, u, x) == Some(Promoted(c, u, x, Max(In(c, u, c.weak(x)), DefaultValue(c, u, x, k))))
  {
    hide In;
    hide DefaultValue;
    hide FirstDefault;
    ValueIs(c, u, x, k);
  }

  /** A symbol without a prompt does not take a value from the user. */
  lemma PromptlessIgnoresUser(c: Config, u: User, x: Sym)
    requires Ends(c, u, x) && c.prompts(x) == []
    ensures !UserDecides(c, u, x)
  {
    HasVisibility(c, u, x);
    var p := VisibilityIs(c, u, x);
  }
}
