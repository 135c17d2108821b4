/**
 The printer and the parser of Kconfig expressions, over tokens (scripts/kconfig/kconfiglib.py).
 A token list ends with the sentinel that the tokenizer puts there.
 */
module KconfigParse {
  import opened KconfigExpr
  import opened Options

  datatype Token = TSym(sym: Sym) | TRel(op: RelOp) | TAnd | TOr | TNot | TOpen | TClose | TOther | TNone

  /** A parsed expression and the index of the next token. */
  datatype Parsed = Parsed(expr: Expr, next: nat)

  /** Ends with the sentinel. */
  predicate Terminated(ts: seq<Token>) {
    ts != [] && ts[|ts| - 1] == TNone
  }

  // ---------------------------------------------------------------------------
  // The grammar, as functions from a token index to a parse or to a parse error

  /** and_expr ['||' expr] */
  function PExpr(ts: seq<Token>, i: nat, tm: bool): (r: Option<Parsed>)
    requires Terminated(ts) && i < |ts|
    ensures r.Some? ==> i < r.value.next < |ts|
    decreases |ts| - i, 2
  {
    var a := PAnd(ts, i, tm);
    if a.None? || ts[a.value.next] != TOr then a
    else
      var b := PExpr(ts, a.value.next + 1, tm);
      if b.None? then None else Some(Parsed(Or(a.value.expr, b.value.expr), b.value.next))
  }

  /** factor ['&&' and_expr] */
  function PAnd(ts: seq<Token>, i: nat, tm: bool): (r: Option<Parsed>)
    requires Terminated(ts) && i < |ts|
    ensures r.Some? ==> i < r.value.next < |ts|
    decreases |ts| - i, 1
  {
    var a := PFactor(ts, i, tm);
    if a.None? || ts[a.value.next] != TAnd then a
    else
      var b := PAnd(ts, a.value.next + 1, tm);
      if b.None? then None else Some(Parsed(And(a.value.expr, b.value.expr), b.value.next))
  }

  /** symbol [relation symbol], '!' factor, or '(' expr ')'; m becomes m && MODULES if asked for */
  function PFactor(ts: seq<Token>, i: nat, tm: bool): (r: Option<Parsed>)
    requires Terminated(ts) && i < |ts|
    ensures r.Some? ==> i < r.value.next < |ts|
    decreases |ts| - i, 0
  {
    match ts[i]
    case TSym(s) =>
      if !ts[i + 1].TRel? then Some(Parsed(if tm && s == M then And(Leaf(M), Leaf(Modules)) else Leaf(s), i + 1))
      else if ts[i + 2].TSym? then Some(Parsed(Rel(ts[i + 1].op, s, ts[i + 2].sym), i + 3))
      else None
    case TNot =>
      var a := PFactor(ts, i + 1, tm);
      if a.None? then None else Some(Parsed(Not(a.value.expr), a.value.next))
    case TOpen =>
      var a := PExpr(ts, i + 1, tm);
      if a.Some? && ts[a.value.next] == TClose then Some(Parsed(a.value.expr, a.value.next + 1)) else None
    case _ => None
  }

  // ---------------------------------------------------------------------------
  // The parser, which advances an index

  class Parser {
    const tokens: seq<Token>
    var i: nat

    constructor (tokens: seq<Token>)
      ensures this.tokens == tokens && i == 0
    {
      this.tokens := tokens;
      i := 0;
    }

    /** _check_token */
    method CheckToken(token: Token) returns (found: bool)
      requires i < |tokens|
      modifies this
      ensures found == (tokens[old(i)] == token) && i == (if found then old(i) + 1 else old(i))
    {
      found := tokens[i] == token;
      if found {
        i := i + 1;
      }
    }

    /** _parse_expr */
    method ParseExpr(tm: bool) returns (r: Option<Expr>)
      requires Terminated(tokens) && i < |tokens|
      modifies this
      ensures var p := PExpr(tokens, old(i), tm);
              r.Some? == p.Some? && (p.Some? ==> r.value == p.value.expr && i == p.value.next)
      decreases |tokens| - i, 2
    {
      r := ParseAndExpr(tm);
      if r.None? {
        return;
      }
      var more := CheckToken(TOr);
      if more {
        var right := ParseExpr(tm);
        r := if right.None? then None else Some(Or(r.value, right.value));
      }
    }

    /** _parse_and_expr */
    method ParseAndExpr(tm: bool) returns (r: Option<Expr>)
      requires Terminated(tokens) && i < |tokens|
      modifies this
      ensures var p := PAnd(tokens, old(i), tm);
              r.Some? == p.Some? && (p.Some? ==> r.value == p.value.expr && i == p.value.next)
      decreases |tokens| - i, 1
    {
      r := ParseFactor(tm);
      if r.None? {
        return;
      }
      var more := CheckToken(TAnd);
      if more {
        var right := ParseAndExpr(tm);
        r := if right.None? then None else Some(And(r.value, right.value));
      }
    }

    /** _parse_factor; None is the parse error */
    method ParseFactor(tm: bool) returns (r: Option<Expr>)
      requires Terminated(tokens) && i < |tokens|
      modifies this
      ensures var p := PFactor(tokens, old(i), tm);
              r.Some? == p.Some? && (p.Some? ==> r.value == p.value.expr && i == p.value.next)
      decreases |tokens| - i, 0
    {
      var token := tokens[i];
      i := i + 1;
      if token.TSym? {
        if !tokens[i].TRel? {
          return Some(if tm && token.sym == M then And(Leaf(M), Leaf(Modules)) else Leaf(token.sym));
        }
        i := i + 1;
        var op := tokens[i - 1].op;
        // _expect_sym
        var second := tokens[i];
        i := i + 1;
        return if second.TSym? then Some(Rel(op, token.sym, second.sym)) else None;
      }
      if token == TNot {
        r := ParseFactor(tm);
        return if r.None? then None else Some(Not(r.value));
      }
      if token == TOpen {
        r := ParseExpr(tm);
        if r.Some? {
          var closed := CheckToken(TClose);
          if closed {
            return;
          }
        }
      }
      return None;
    }
  }

  // ---------------------------------------------------------------------------
  // The printer

  /** _parenthesize, for operands of AND */
  function AndOperand(e: Expr): seq<Token>
    decreases e, 1
  {
    if e.Or? then [TOpen] + Print(e) + [TClose] else Print(e)
  }

  /** _parenthesize, for operands of OR */
  function OrOperand(e: Expr): seq<Token>
    decreases e, 1
  {
    if e.And? then [TOpen] + Print(e) + [TClose] else Print(e)
  }

  /** expr_str */
  function Print(e: Expr): (ts: seq<Token>)
    ensures |ts| > 0
    decreases e, 0
  {
    match e
    case Leaf(s) => [TSym(s)]
    case And(l, r) => AndOperand(l) + [TAnd] + AndOperand(r)
    case Or(l, r) => OrOperand(l) + [TOr] + OrOperand(r)
    case Not(x) => if x.Leaf? then [TNot] + [TSym(x.sym)] else [TNot, TOpen] + Print(x) + [TClose]
    case Rel(op, a, b) => [TSym(a), TRel(op), TSym(b)]
  }

  // ---------------------------------------------------------------------------
  // Printing and parsing again

  /** The value of an expression in which, if tm, every m stands for m && MODULES. */
  function ValueT(e: Expr, tm: bool, env: Env): Tri {
    match e
    case Leaf(s) => if tm && s == M then Min(env.tri(M), env.tri(Modules)) else env.tri(s)
    case And(l, r) => Min(ValueT(l, tm, env), ValueT(r, tm, env))
    case Or(l, r) => Max(ValueT(l, tm, env), ValueT(r, tm, env))
    case Not(x) => 2 - ValueT(x, tm, env)
    case Rel(op, a, b) => if Holds(op, env.comp(a, b)) then 2 else 0
  }

  /** The tokens p stand at index i. */
  ghost predicate Stands(ts: seq<Token>, i: nat, p: seq<Token>) {
    i + |p| < |ts| && ts[i..i + |p|] == p
  }

  lemma StandsSplit(ts: seq<Token>, i: nat, p: seq<Token>, q: seq<Token>)
    requires Stands(ts, i, p + q)
    ensures Stands(ts, i, p) && Stands(ts, i + |p|, q)
  {
    assert ts[i..i + |p|] == ts[i..i + |p + q|][..|p|];
    assert ts[i + |p|..i + |p| + |q|] == ts[i..i + |p + q|][|p|..];
  }

  lemma StandsInside(ts: seq<Token>, i: nat, p: seq<Token>)
    requires Stands(ts, i, p)
    ensures i + |p| < |ts|
  {
  }

  /** An operator between its operands. */
  lemma SplitAt(ts: seq<Token>, i: nat, p: seq<Token>, t: Token, q: seq<Token>)
    requires Stands(ts, i, p + [t] + q)
    ensures var m := i + |p|; m + 1 + |q| < |ts| && Stands(ts, i, p) && ts[m] == t && Stands(ts, m + 1, q)
  {
    StandsSplit(ts, i, p + [t], q);
    StandsSplit(ts, i, p, [t]);
    var m := i + |p|;
    assert ts[m] == ts[m..m + 1][0];
  }

  /** A parse of at least the tokens up to j that means f of the environment. */
  ghost predicate Means(r: Option<Parsed>, k: nat, f: Env -> Tri) {
    r.Some? && r.value.next == k && forall env :: Value(r.value.expr, env) == f(env)
  }

  /** What follows an operand of AND: the rest of the chain, or nothing. */
  ghost predicate AndRest(ts: seq<Token>, j: nat, tm: bool, k: nat, f: Env -> Tri)
    requires Terminated(ts) && j < |ts|
  {
    if ts[j] == TAnd then j + 1 < |ts| && Means(PAnd(ts, j + 1, tm), k, f) else k == j && forall env :: f(env) == 2
  }

  ghost predicate OrRest(ts: seq<Token>, j: nat, tm: bool, k: nat, f: Env -> Tri)
    requires Terminated(ts) && j < |ts|
  {
    if ts[j] == TOr then j + 1 < |ts| && Means(PExpr(ts, j + 1, tm), k, f) else k == j && forall env :: f(env) == 0
  }

  ghost function AndThen(e: Expr, tm: bool, f: Env -> Tri): Env -> Tri { env => Min(ValueT(e, tm, env), f(env)) }

  ghost function OrThen(e: Expr, tm: bool, f: Env -> Tri): Env -> Tri { env => Max(ValueT(e, tm, env), f(env)) }

  /** A factor that means e, in front of the rest of an AND chain. */
  lemma FactorThenAnd(e: Expr, ts: seq<Token>, i: nat, j: nat, tm: bool, k: nat, f: Env -> Tri)
    requires Terminated(ts) && i < j < |ts| && Means(PFactor(ts, i, tm), j, env => ValueT(e, tm, env)) && AndRest(ts, j, tm, k, f)
    ensures Means(PAnd(ts, i, tm), k, AndThen(e, tm, f))
  {
  }

  /** An and_expr that means e, in front of the rest of an OR chain. */
  lemma AndThenOr(e: Expr, ts: seq<Token>, i: nat, j: nat, tm: bool, k: nat, f: Env -> Tri)
    requires Terminated(ts) && i < j < |ts| && Means(PAnd(ts, i, tm), j, env => ValueT(e, tm, env)) && OrRest(ts, j, tm, k, f)
    ensures Means(PExpr(ts, i, tm), k, OrThen(e, tm, f))
  {
  }

  ghost function One(): Env -> Tri { _ => 2 }

  ghost function Zero(): Env -> Tri { _ => 0 }

  /** Two ways to say the same meaning. */
  lemma MeansSame(r: Option<Parsed>, k: nat, f: Env -> Tri, g: Env -> Tri)
    requires Means(r, k, f) && forall env :: f(env) == g(env)
    ensures Means(r, k, g)
  {
  }

  lemma OrChain(l: Expr, r: Expr, tm: bool, f: Env -> Tri)
    ensures forall env :: OrThen(l, tm, OrThen(r, tm, f))(env) == OrThen(Or(l, r), tm, f)(env)
  {
    forall env ensures OrThen(l, tm, OrThen(r, tm, f))(env) == OrThen(Or(l, r), tm, f)(env) {
      var a, b, c := ValueT(l, tm, env), ValueT(r, tm, env), f(env);
      assert ValueT(Or(l, r), tm, env) == Max(a, b);
      assert OrThen(Or(l, r), tm, f)(env) == Max(ValueT(Or(l, r), tm, env), c);
      assert OrThen(r, tm, f)(env) == Max(b, c);
      assert OrThen(l, tm, OrThen(r, tm, f))(env) == Max(a, Max(b, c));
    }
  }

  lemma AndChain(l: Expr, r: Expr, tm: bool, f: Env -> Tri)
    ensures forall env :: AndThen(l, tm, AndThen(r, tm, f))(env) == AndThen(And(l, r), tm, f)(env)
  {
    forall env ensures AndThen(l, tm, AndThen(r, tm, f))(env) == AndThen(And(l, r), tm, f)(env) {
      var a, b, c := ValueT(l, tm, env), ValueT(r, tm, env), f(env);
      assert ValueT(And(l, r), tm, env) == Min(a, b);
      assert AndThen(And(l, r), tm, f)(env) == Min(ValueT(And(l, r), tm, env), c);
      assert AndThen(r, tm, f)(env) == Min(b, c);
      assert AndThen(l, tm, AndThen(r, tm, f))(env) == Min(a, Min(b, c));
    }
  }

  /** A negated factor. */
  lemma NotFactor(x: Expr, ts: seq<Token>, i: nat, k: nat, tm: bool)
    requires Terminated(ts) && i + 1 < |ts| && ts[i] == TNot && Means(PFactor(ts, i + 1, tm), k, env => ValueT(x, tm, env))
    ensures Means(PFactor(ts, i, tm), k, env => ValueT(Not(x), tm, env))
  {
    hide PExpr;
    var a := PFactor(ts, i + 1, tm);
    assert PFactor(ts, i, tm) == Some(Parsed(Not(a.value.expr), a.value.next));
    forall env ensures Value(Not(a.value.expr), env) == ValueT(Not(x), tm, env) {
      assert Value(a.value.expr, env) == ValueT(x, tm, env);
    }
  }

  predicate EndsFactor(t: Token) { !t.TRel? }

  /** A printed expression, in front of the rest of an OR chain, is read back with its meaning. */
  lemma {:induction false} ReadExpr(e: Expr, ts: seq<Token>, i: nat, tm: bool, k: nat, f: Env -> Tri)
    requires Terminated(ts) && Stands(ts, i, Print(e))
    requires var j := i + |Print(e)|; EndsFactor(ts[j]) && ts[j] != TAnd && OrRest(ts, j, tm, k, f)
    ensures Means(PExpr(ts, i, tm), k, OrThen(e, tm, f))
    decreases e, 3
  {
    hide PExpr;
    hide PAnd;
    hide PFactor;
    hide Means;
    hide Stands;
    hide ValueT;
    hide OrOperand;
    var j := i + |Print(e)|;
    if e.Or? {
      var m := i + |OrOperand(e.l)|;
      SplitAt(ts, i, OrOperand(e.l), TOr, OrOperand(e.r));
      ReadOrOperand(e.r, ts, m + 1, tm, k, f);
      ReadOrOperand(e.l, ts, i, tm, k, OrThen(e.r, tm, f));
      OrChain(e.l, e.r, tm, f);
      MeansSame(PExpr(ts, i, tm), k, OrThen(e.l, tm, OrThen(e.r, tm, f)), OrThen(e, tm, f));
    } else {
      StandsInside(ts, i, Print(e));
      ReadAnd(e, ts, i, tm, j, One());
      MeansSame(PAnd(ts, i, tm), j, AndThen(e, tm, One()), env => ValueT(e, tm, env));
      AndThenOr(e, ts, i, j, tm, k, f);
    }
  }

  lemma {:induction false} ReadOrOperand(e: Expr, ts: seq<Token>, i: nat, tm: bool, k: nat, f: Env -> Tri)
    requires Terminated(ts) && Stands(ts, i, OrOperand(e))
    requires var j := i + |OrOperand(e)|; EndsFactor(ts[j]) && ts[j] != TAnd && OrRest(ts, j, tm, k, f)
    ensures Means(PExpr(ts, i, tm), k, OrThen(e, tm, f))
    decreases e, 5
  {
    hide PExpr;
    hide PAnd;
    hide PFactor;
    hide Means;
    if e.And? {
      var j := i + |OrOperand(e)|;
      ReadParen(e, ts, i, tm);
      FactorThenAnd(e, ts, i, j, tm, j, One());
      MeansSame(PAnd(ts, i, tm), j, AndThen(e, tm, One()), env => ValueT(e, tm, env));
      AndThenOr(e, ts, i, j, tm, k, f);
    } else {
      ReadExpr(e, ts, i, tm, k, f);
    }
  }

  lemma {:induction false} ReadParen(e: Expr, ts: seq<Token>, i: nat, tm: bool)
    requires Terminated(ts) && Stands(ts, i, [TOpen] + Print(e) + [TClose])
    ensures Means(PFactor(ts, i, tm), i + |Print(e)| + 2, env => ValueT(e, tm, env))
    decreases e, 4
  {
    hide PExpr;
    hide PAnd;
    StandsSplit(ts, i, [TOpen] + Print(e), [TClose]);
    StandsSplit(ts, i, [TOpen], Print(e));
    var j := i + 1 + |Print(e)|;
    assert ts[i] == ts[i..i + 1][0] && ts[j] == ts[j..j + 1][0];
    ReadExpr(e, ts, i + 1, tm, j, Zero());
    assert PFactor(ts, i, tm) == Some(Parsed(PExpr(ts, i + 1, tm).value.expr, j + 1));
  }

  lemma {:induction false} ReadAnd(e: Expr, ts: seq<Token>, i: nat, tm: bool, k: nat, f: Env -> Tri)
    requires !e.Or? && Terminated(ts) && Stands(ts, i, Print(e))
    requires var j := i + |Print(e)|; EndsFactor(ts[j]) && AndRest(ts, j, tm, k, f)
    ensures Means(PAnd(ts, i, tm), k, AndThen(e, tm, f))
    decreases e, 2
  {
    hide PExpr;
    hide PAnd;
    hide PFactor;
    hide Means;
    hide Stands;
    hide ValueT;
    hide AndOperand;
    if e.And? {
      var m := i + |AndOperand(e.l)|;
      SplitAt(ts, i, AndOperand(e.l), TAnd, AndOperand(e.r));
      ReadAndOperand(e.r, ts, m + 1, tm, k, f);
      ReadAndOperand(e.l, ts, i, tm, k, AndThen(e.r, tm, f));
      AndChain(e.l, e.r, tm, f);
      MeansSame(PAnd(ts, i, tm), k, AndThen(e.l, tm, AndThen(e.r, tm, f)), AndThen(e, tm, f));
    } else {
      StandsInside(ts, i, Print(e));
      ReadFactor(e, ts, i, tm);
      FactorThenAnd(e, ts, i, i + |Print(e)|, tm, k, f);
    }
  }

  lemma {:induction false} ReadAndOperand(e: Expr, ts: seq<Token>, i: nat, tm: bool, k: nat, f: Env -> Tri)
    requires Terminated(ts) && Stands(ts, i, AndOperand(e))
    requires var j := i + |AndOperand(e)|; EndsFactor(ts[j]) && AndRest(ts, j, tm, k, f)
    ensures Means(PAnd(ts, i, tm), k, AndThen(e, tm, f))
    decreases e, 5
  {
    hide PExpr;
    hide PAnd;
    hide PFactor;
    hide Means;
    if e.Or? {
      ReadParen(e, ts, i, tm);
      FactorThenAnd(e, ts, i, i + |AndOperand(e)|, tm, k, f);
    } else {
      ReadAnd(e, ts, i, tm, k, f);
    }
  }

  lemma {:induction false} ReadFactor(e: Expr, ts: seq<Token>, i: nat, tm: bool)
    requires (e.Leaf? || e.Not? || e.Rel?) && Terminated(ts) && Stands(ts, i, Print(e))
    requires EndsFactor(ts[i + |Print(e)|])
    ensures Means(PFactor(ts, i, tm), i + |Print(e)|, env => ValueT(e, tm, env))
    decreases e, 1
  {
    hide PExpr;
    hide PAnd;
    hide PFactor;
    hide Means;
    hide ValueT;
    match e
    case Leaf(s) => ReadLeaf(s, ts, i, tm);
    case Not(x) =>
      if x.Leaf? {
        StandsSplit(ts, i, [TNot], Print(x));
        assert ts[i] == ts[i..i + 1][0];
        ReadFactor(x, ts, i + 1, tm);
        NotFactor(x, ts, i, i + 2, tm);
      } else {
        assert [TNot, TOpen] + Print(x) + [TClose] == [TNot] + ([TOpen] + Print(x) + [TClose]);
        StandsSplit(ts, i, [TNot], [TOpen] + Print(x) + [TClose]);
        assert ts[i] == ts[i..i + 1][0];
        ReadParen(x, ts, i + 1, tm);
        NotFactor(x, ts, i, i + |Print(e)|, tm);
      }
    case Rel(op, a, b) => ReadRel(op, a, b, ts, i, tm);
  }

  lemma ReadLeaf(s: Sym, ts: seq<Token>, i: nat, tm: bool)
    requires Terminated(ts) && Stands(ts, i, [TSym(s)]) && EndsFactor(ts[i + 1])
    ensures Means(PFactor(ts, i, tm), i + 1, env => ValueT(Leaf(s), tm, env))
  {
    assert ts[i] == ts[i..i + 1][0];
    SymbolAlone(ts, i, s, tm);
    forall env ensures Value(PFactor(ts, i, tm).value.expr, env) == ValueT(Leaf(s), tm, env) {
      assert Value(And(Leaf(M), Leaf(Modules)), env) == Min(env.tri(M), env.tri(Modules));
    }
  }

  lemma ReadRel(op: RelOp, a: Sym, b: Sym, ts: seq<Token>, i: nat, tm: bool)
    requires Terminated(ts) && Stands(ts, i, [TSym(a), TRel(op), TSym(b)])
    ensures Means(PFactor(ts, i, tm), i + 3, env => ValueT(Rel(op, a, b), tm, env))
  {
    var t := ts[i..i + 3];
    assert ts[i] == t[0] && ts[i + 1] == t[1] && ts[i + 2] == t[2];
  }

  // ---------------------------------------------------------------------------
  // What the parser builds

  /** Every m stands in front of && MODULES. */
  predicate Guarded(e: Expr) {
    match e
    case Leaf(s) => s != M
    case And(l, r) => (l == Leaf(M) && r == Leaf(Modules)) || (Guarded(l) && Guarded(r))
    case Or(l, r) => Guarded(l) && Guarded(r)
    case Not(x) => Guarded(x)
    case Rel(_, _, _) => true
  }

  lemma {:induction false} GuardedValue(e: Expr, env: Env)
    requires Guarded(e)
    ensures ValueT(e, true, env) == Value(e, env)
  {
    match e
    case Leaf(_) =>
    case And(l, r) => if l != Leaf(M) || r != Leaf(Modules) { GuardedValue(l, env); GuardedValue(r, env); }
    case Or(l, r) => GuardedValue(l, env); GuardedValue(r, env);
    case Not(x) => GuardedValue(x, env);
    case Rel(_, _, _) =>
  }

  lemma {:induction false} UntransformedValue(e: Expr, env: Env)
    ensures ValueT(e, false, env) == Value(e, env)
  {
    match e
    case Leaf(_) =>
    case And(l, r) => UntransformedValue(l, env); UntransformedValue(r, env);
    case Or(l, r) => UntransformedValue(l, env); UntransformedValue(r, env);
    case Not(x) => UntransformedValue(x, env);
    case Rel(_, _, _) =>
  }

  lemma {:induction false} ExprIsGuarded(ts: seq<Token>, i: nat)
    requires Terminated(ts) && i < |ts| && PExpr(ts, i, true).Some?
    ensures Guarded(PExpr(ts, i, true).value.expr)
    decreases |ts| - i, 2
  {
    AndIsGuarded(ts, i);
    var a := PAnd(ts, i, true);
    if ts[a.value.next] == TOr { ExprIsGuarded(ts, a.value.next + 1); }
  }

  lemma {:induction false} AndIsGuarded(ts: seq<Token>, i: nat)
    requires Terminated(ts) && i < |ts| && PAnd(ts, i, true).Some?
    ensures Guarded(PAnd(ts, i, true).value.expr)
    decreases |ts| - i, 1
  {
    FactorIsGuarded(ts, i);
    var a := PFactor(ts, i, true);
    if ts[a.value.next] == TAnd { AndIsGuarded(ts, a.value.next + 1); }
  }

  lemma {:induction false} FactorIsGuarded(ts: seq<Token>, i: nat)
    requires Terminated(ts) && i < |ts| && PFactor(ts, i, true).Some?
    ensures Guarded(PFactor(ts, i, true).value.expr)
    decreases |ts| - i, 0
  {
    if ts[i] == TNot { FactorIsGuarded(ts, i + 1); }
    if ts[i] == TOpen { ExprIsGuarded(ts, i + 1); }
  }

  /** The assignment in which m is no more than MODULES. */
  function Lowered(env: Env): Env { env.(tri := LowerM(env.tri)) }

  function LowerM(f: Sym -> Tri): Sym -> Tri { (s: Sym) => if s == M then Min(f(M), f(Modules)) else f(s) }

  lemma {:induction false} LoweredValue(e: Expr, env: Env)
    ensures ValueT(e, true, env) == Value(e, Lowered(env))
  {
    match e
    case Leaf(_) =>
    case And(l, r) => LoweredValue(l, env); LoweredValue(r, env);
    case Or(l, r) => LoweredValue(l, env); LoweredValue(r, env);
    case Not(x) => LoweredValue(x, env);
    case Rel(_, _, _) =>
  }

  /** With modules enabled nothing is lowered. */
  lemma {:induction false} EnabledValue(e: Expr, env: Env)
    requires Proper(env) && env.tri(Modules) != 0
    ensures ValueT(e, true, env) == Value(e, env)
  {
    match e
    case Leaf(_) =>
    case And(l, r) => EnabledValue(l, env); EnabledValue(r, env);
    case Or(l, r) => EnabledValue(l, env); EnabledValue(r, env);
    case Not(x) => EnabledValue(x, env);
    case Rel(_, _, _) =>
  }

  /** Printing any expression and parsing it. */
  function Reparsed(e: Expr, tm: bool): Option<Parsed> { PExpr(Print(e) + [TNone], 0, tm) }

  /**
   Any expression that is printed and parsed is read to its end, and then means, under every assignment, what it
   meant before or, as a condition, what it meant with m lowered to MODULES.
   */
  lemma ReparseMeans(e: Expr, tm: bool)
    ensures Reparsed(e, tm).Some? && Reparsed(e, tm).value.next == |Print(e)|
    ensures forall env :: Value(Reparsed(e, tm).value.expr, env) == Value(e, if tm then Lowered(env) else env)
  {
    hide PExpr;
    hide Print;
    var ts := Print(e) + [TNone];
    assert ts[0..|Print(e)|] == Print(e);
    ReadExpr(e, ts, 0, tm, |Print(e)|, Zero());
    forall env ensures ValueT(e, tm, env) == Value(e, if tm then Lowered(env) else env) {
      if tm { LoweredValue(e, env); } else { UntransformedValue(e, env); }
    }
  }

  /** So the value stays the same if modules are enabled, or if every m is guarded. */
  lemma ReparseIsStable(e: Expr, tm: bool, env: Env)
    requires tm ==> Guarded(e) || (Proper(env) && env.tri(Modules) != 0)
    ensures Reparsed(e, tm).Some? && Value(Reparsed(e, tm).value.expr, env) == Value(e, env)
  {
    hide Reparsed;
    hide Guarded;
    ReparseMeans(e, tm);
    if tm {
      LoweredValue(e, env);
      if Guarded(e) { GuardedValue(e, env); } else { EnabledValue(e, env); }
    }
  }

  /** With modules disabled it stays the same exactly if it does not matter whether m is n. */
  lemma ReparseIsStableIff(e: Expr, env: Env)
    requires Proper(env) && env.tri(Modules) == 0
    ensures Reparsed(e, true).Some?
    ensures Value(Reparsed(e, true).value.expr, env) == Value(e, env) <==> Value(WithN(e), env) == Value(e, env)
  {
    hide Reparsed;
    ReparseMeans(e, true);
    WithNValue(e, env);
  }

  /** The expression with n in place of every m outside relations; for a guarded m this changes nothing if MODULES is n. */
  function WithN(e: Expr): Expr {
    match e
    case Leaf(s) => if s == M then Leaf(N) else e
    case And(l, r) => And(WithN(l), WithN(r))
    case Or(l, r) => Or(WithN(l), WithN(r))
    case Not(x) => Not(WithN(x))
    case Rel(_, _, _) => e
  }

  lemma {:induction false} WithNValue(e: Expr, env: Env)
    requires Proper(env) && env.tri(Modules) == 0
    ensures Value(WithN(e), env) == Value(e, Lowered(env))
  {
    match e
    case Leaf(_) =>
    case And(l, r) => WithNValue(l, env); WithNValue(r, env);
    case Or(l, r) => WithNValue(l, env); WithNValue(r, env);
    case Not(x) => WithNValue(x, env);
    case Rel(_, _, _) =>
  }

  /**
   Printing what the parser built and parsing it again, with the same treatment of m, reads all the tokens and
   gives an expression with the same value under every assignment.
   */
  lemma PrintParseRoundTrip(ts: seq<Token>, i: nat, tm: bool)
    requires Terminated(ts) && i < |ts| && PExpr(ts, i, tm).Some?
    ensures var e := PExpr(ts, i, tm).value.expr;
            var again := Reparsed(e, tm);
            && again.Some? && again.value.next == |Print(e)|
            && forall env :: Value(again.value.expr, env) == Value(e, env)
  {
    hide PExpr;
    hide Reparsed;
    hide Guarded;
    var e := PExpr(ts, i, tm).value.expr;
    if tm { ExprIsGuarded(ts, i); }
    ReparseMeans(e, tm);
    forall env ensures Value(Reparsed(e, tm).value.expr, env) == Value(e, env) { ReparseIsStable(e, tm, env); }
  }

  lemma SymbolAlone(ts: seq<Token>, i: nat, s: Sym, tm: bool)
    requires Terminated(ts) && i + 1 < |ts| && ts[i] == TSym(s) && !ts[i + 1].TRel?
    ensures PFactor(ts, i, tm) == Some(Parsed(if tm && s == M then And(Leaf(M), Leaf(Modules)) else Leaf(s), i + 1))
    ensures ts[i + 1] != TAnd ==> PAnd(ts, i, tm) == PFactor(ts, i, tm)
    ensures ts[i + 1] != TAnd && ts[i + 1] != TOr ==> PExpr(ts, i, tm) == PFactor(ts, i, tm)
  {
  }

  /** It need not be the same expression: (A || B) || C comes back as A || (B || C). */
  lemma ReparseReassociates(a: Sym, b: Sym, c: Sym)
    ensures var e := Or(Or(Leaf(a), Leaf(b)), Leaf(c));
            PExpr(Print(e) + [TNone], 0, false) == Some(Parsed(Or(Leaf(a), Or(Leaf(b), Leaf(c))), 5))
  {
    var ts := [TSym(a), TOr, TSym(b), TOr, TSym(c), TNone];
    var ab := Or(Leaf(a), Leaf(b));
    assert OrOperand(Leaf(a)) == [TSym(a)] && OrOperand(Leaf(b)) == [TSym(b)] && OrOperand(Leaf(c)) == [TSym(c)];
    assert Print(ab) == [TSym(a)] + [TOr] + [TSym(b)];
    assert OrOperand(ab) == Print(ab);
    assert Print(Or(ab, Leaf(c))) == Print(ab) + [TOr] + [TSym(c)];
    assert Print(Or(Or(Leaf(a), Leaf(b)), Leaf(c))) + [TNone] == ts;
    SymbolAlone(ts, 4, c, false);
    SymbolAlone(ts, 2, b, false);
    SymbolAlone(ts, 0, a, false);
  }

  /** An m that no parser guarded: parsing it as a condition adds && MODULES, which counts if modules are disabled. */
  lemma UnguardedChanges(env: Env)
    requires Proper(env) && env.tri(Modules) == 0
    ensures Reparsed(Leaf(M), true).Some? && Value(Reparsed(Leaf(M), true).value.expr, env) != Value(Leaf(M), env)
  {
    ReparseIsStableIff(Leaf(M), env);
  }
}
