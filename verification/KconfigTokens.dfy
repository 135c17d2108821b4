/**
 What the parser of Kconfig expressions (scripts/kconfig/kconfiglib.py) accepts: an expression is read from just the tokens
 it consists of, in their order, and from balanced parentheses.
 */
module KconfigTokens {
  import opened KconfigExpr
  import opened KconfigParse
  import opened Options

  /** The tokens other than parentheses. */
  function Bare(ts: seq<Token>): seq<Token> {
    if ts == [] then [] else (if ts[0] == TOpen || ts[0] == TClose then [] else [ts[0]]) + Bare(ts[1..])
  }

  /** The depth of parentheses behind ts, if it is d in front; None if one is closed that was not opened. */
  function Depth(ts: seq<Token>, d: nat): Option<nat>
    decreases |ts|
  {
    if ts == [] then Some(d)
    else if ts[0] == TOpen then Depth(ts[1..], d + 1)
    else if ts[0] != TClose then Depth(ts[1..], d)
    else if d == 0 then None
    else Depth(ts[1..], d - 1)
  }

  ghost predicate Balanced(ts: seq<Token>) { forall d: nat :: Depth(ts, d) == Some(d) }

  /** An expression without parentheses; with `tm`, m && MODULES stands for the m that it was made of. */
  function Flat(e: Expr, tm: bool): seq<Token> {
    if tm && e == And(Leaf(M), Leaf(Modules)) then [TSym(M)]
    else
      match e
      case Leaf(s) => [TSym(s)]
      case And(l, r) => Flat(l, tm) + [TAnd] + Flat(r, tm)
      case Or(l, r) => Flat(l, tm) + [TOr] + Flat(r, tm)
      case Not(x) => [TNot] + Flat(x, tm)
      case Rel(op, a, b) => [TSym(a), TRel(op), TSym(b)]
  }

  lemma {:induction false} BareConcat(a: seq<Token>, b: seq<Token>)
    ensures Bare(a + b) == Bare(a) + Bare(b)
  {
    if a == [] { assert a + b == b; } else {
      assert (a + b)[1..] == a[1..] + b;
      BareConcat(a[1..], b);
    }
  }

  lemma {:induction false} DepthConcat(a: seq<Token>, b: seq<Token>, d: nat)
    requires Depth(a, d).Some?
    ensures Depth(a + b, d) == Depth(b, Depth(a, d).value)
    decreases |a|
  {
    if a == [] { assert a + b == b; } else {
      assert (a + b)[1..] == a[1..] + b;
      DepthConcat(a[1..], b, if a[0] == TOpen then d + 1 else if a[0] == TClose then d - 1 else d);
    }
  }

  lemma OneToken(t: Token)
    ensures Bare([t]) == if t == TOpen || t == TClose then [] else [t]
    ensures t != TOpen && t != TClose ==> Balanced([t])
  {
    assert [t][1..] == [];
  }

  /** The tokens from i to k - 1 make up an expression without parentheses. */
  ghost predicate Spells(ts: seq<Token>, i: nat, k: nat, flat: seq<Token>) {
    i <= k <= |ts| && Bare(ts[i..k]) == flat && Balanced(ts[i..k])
  }

  lemma SpellsOne(ts: seq<Token>, i: nat)
    requires i < |ts| && ts[i] != TOpen && ts[i] != TClose
    ensures Spells(ts, i, i + 1, [ts[i]])
  {
    assert ts[i..i + 1] == [ts[i]];
    OneToken(ts[i]);
  }

  lemma SpellsJoin(ts: seq<Token>, i: nat, j: nat, k: nat, a: seq<Token>, b: seq<Token>)
    requires Spells(ts, i, j, a) && Spells(ts, j, k, b)
    ensures Spells(ts, i, k, a + b)
  {
    var p, q := ts[i..j], ts[j..k];
    assert ts[i..k] == p + q;
    BareConcat(p, q);
    forall d: nat ensures Depth(p + q, d) == Some(d) { DepthConcat(p, q, d); }
  }

  lemma SpellsParen(ts: seq<Token>, i: nat, k: nat, a: seq<Token>)
    requires i + 1 <= k < |ts| && ts[i] == TOpen && ts[k] == TClose && Spells(ts, i + 1, k, a)
    ensures Spells(ts, i, k + 1, a)
  {
    var p := ts[i + 1..k];
    assert ts[i..k + 1] == [TOpen] + p + [TClose];
    BareConcat([TOpen] + p, [TClose]);
    BareConcat([TOpen], p);
    OneToken(TOpen);
    OneToken(TClose);
    forall d: nat ensures Depth([TOpen] + p + [TClose], d) == Some(d) {
      assert ([TOpen] + p)[1..] == p && [TClose][1..] == [];
      assert Depth([TOpen] + p, d) == Depth(p, d + 1) == Some(d + 1);
      DepthConcat([TOpen] + p, [TClose], d);
      assert Depth([TClose], d + 1) == Some(d);
    }
  }

  /** Whatever the parser reads, it reads just these tokens. */
  lemma {:induction false} ExprSpelled(ts: seq<Token>, i: nat, tm: bool)
    requires Terminated(ts) && i < |ts| && PExpr(ts, i, tm).Some?
    ensures var p := PExpr(ts, i, tm).value; Spells(ts, i, p.next, Flat(p.expr, tm))
    decreases |ts| - i, 2
  {
    hide Spells;
    AndSpelled(ts, i, tm);
    var a := PAnd(ts, i, tm).value;
    if ts[a.next] == TOr {
      ExprSpelled(ts, a.next + 1, tm);
      var b := PExpr(ts, a.next + 1, tm).value;
      SpellsOne(ts, a.next);
      SpellsJoin(ts, i, a.next, a.next + 1, Flat(a.expr, tm), [TOr]);
      SpellsJoin(ts, i, a.next + 1, b.next, Flat(a.expr, tm) + [TOr], Flat(b.expr, tm));
    }
  }

  lemma {:induction false} AndSpelled(ts: seq<Token>, i: nat, tm: bool)
    requires Terminated(ts) && i < |ts| && PAnd(ts, i, tm).Some?
    ensures var p := PAnd(ts, i, tm).value; Spells(ts, i, p.next, Flat(p.expr, tm))
    decreases |ts| - i, 1
  {
    hide Spells;
    FactorSpelled(ts, i, tm);
    var a := PFactor(ts, i, tm).value;
    if ts[a.next] == TAnd {
      AndSpelled(ts, a.next + 1, tm);
      var b := PAnd(ts, a.next + 1, tm).value;
      SpellsOne(ts, a.next);
      SpellsJoin(ts, i, a.next, a.next + 1, Flat(a.expr, tm), [TAnd]);
      SpellsJoin(ts, i, a.next + 1, b.next, Flat(a.expr, tm) + [TAnd], Flat(b.expr, tm));
      if tm { NeverBareM(ts, i); }
    }
  }

  lemma {:induction false} FactorSpelled(ts: seq<Token>, i: nat, tm: bool)
    requires Terminated(ts) && i < |ts| && PFactor(ts, i, tm).Some?
    ensures var p := PFactor(ts, i, tm).value; Spells(ts, i, p.next, Flat(p.expr, tm))
    decreases |ts| - i, 0
  {
    hide Spells;
    var p := PFactor(ts, i, tm).value;
    match ts[i]
    case TSym(s) =>
      SpellsOne(ts, i);
      if ts[i + 1].TRel? {
        SpellsOne(ts, i + 1);
        SpellsOne(ts, i + 2);
        SpellsJoin(ts, i, i + 1, i + 2, [ts[i]], [ts[i + 1]]);
        SpellsJoin(ts, i, i + 2, i + 3, [ts[i]] + [ts[i + 1]], [ts[i + 2]]);
        assert [ts[i]] + [ts[i + 1]] + [ts[i + 2]] == Flat(p.expr, tm);
      }
    case TNot =>
      FactorSpelled(ts, i + 1, tm);
      SpellsOne(ts, i);
      SpellsJoin(ts, i, i + 1, p.next, [TNot], Flat(p.expr.e, tm));
    case TOpen =>
      ExprSpelled(ts, i + 1, tm);
      SpellsParen(ts, i, p.next - 1, Flat(p.expr, tm));
  }

  /** A parser that guards m never gives m alone as a factor. */
  lemma NeverBareM(ts: seq<Token>, i: nat)
    requires Terminated(ts) && i < |ts| && PFactor(ts, i, true).Some?
    ensures PFactor(ts, i, true).value.expr != Leaf(M)
  {
    FactorIsGuarded(ts, i);
  }

  // ---------------------------------------------------------------------------
  // Precedence

  /** Without parentheses: a symbol, a relation or a negation, ... */
  predicate IsFactor(e: Expr, tm: bool) {
    match e
    case Leaf(_) => true
    case Rel(_, _, _) => true
    case Not(x) => IsFactor(x, tm)
    case _ => tm && e == And(Leaf(M), Leaf(Modules))
  }

  /** ... an AND of these, nested to the right, ... */
  predicate IsConjunction(e: Expr, tm: bool) {
    IsFactor(e, tm) || (e.And? && IsFactor(e.l, tm) && IsConjunction(e.r, tm))
  }

  /** ... and an OR of those. */
  predicate IsDisjunction(e: Expr, tm: bool) {
    IsConjunction(e, tm) || (e.Or? && IsConjunction(e.l, tm) && IsDisjunction(e.r, tm))
  }

  ghost predicate NoParens(ts: seq<Token>) { forall k | 0 <= k < |ts| :: ts[k] != TOpen && ts[k] != TClose }

  /** NOT binds closer than AND, and AND closer than OR. */
  lemma {:induction false} Precedence(ts: seq<Token>, i: nat, tm: bool)
    requires Terminated(ts) && i < |ts| && PExpr(ts, i, tm).Some? && NoParens(ts)
    ensures IsDisjunction(PExpr(ts, i, tm).value.expr, tm)
    decreases |ts| - i, 2
  {
    AndPrecedence(ts, i, tm);
    var a := PAnd(ts, i, tm).value;
    if ts[a.next] == TOr { Precedence(ts, a.next + 1, tm); }
  }

  lemma {:induction false} AndPrecedence(ts: seq<Token>, i: nat, tm: bool)
    requires Terminated(ts) && i < |ts| && PAnd(ts, i, tm).Some? && NoParens(ts)
    ensures IsConjunction(PAnd(ts, i, tm).value.expr, tm)
    decreases |ts| - i, 1
  {
    FactorPrecedence(ts, i, tm);
    var a := PFactor(ts, i, tm).value;
    if ts[a.next] == TAnd { AndPrecedence(ts, a.next + 1, tm); }
  }

  lemma {:induction false} FactorPrecedence(ts: seq<Token>, i: nat, tm: bool)
    requires Terminated(ts) && i < |ts| && PFactor(ts, i, tm).Some? && NoParens(ts)
    ensures IsFactor(PFactor(ts, i, tm).value.expr, tm)
    decreases |ts| - i, 0
  {
    if ts[i] == TNot { FactorPrecedence(ts, i + 1, tm); }
  }
}
