/**
 What happens between parsing and the first evaluation in scripts/kconfig/kconfiglib.py: the dependents of every
 symbol are recorded and scanned for loops.
 */
module KconfigDeps {
  import opened KconfigExpr
  import opened KconfigEval
  import opened KconfigLoop
  import opened Options

  // ---------------------------------------------------------------------------
  // Which symbols a definition mentions

  predicate Mentions(e: Expr, s: Sym) {
    match e
    case Leaf(t) => t == s
    case And(l, r) => Mentions(l, s) || Mentions(r, s)
    case Or(l, r) => Mentions(l, s) || Mentions(r, s)
    case Not(y) => Mentions(y, s)
    case Rel(_, t, t') => t == s || t' == s
  }

  /** One of the first k prompts has the symbol in its condition. */
  ghost predicate InPrompts(c: Config, x: Sym, k: nat, s: Sym) {
    exists j :: 0 <= j < k && j < |c.prompts(x)| && Mentions(c.prompts(x)[j], s)
  }

  /** One of the first k defaults has the symbol in its value or condition. */
  ghost predicate InDefaults(c: Config, x: Sym, k: nat, s: Sym) {
    exists j :: 0 <= j < k && j < |c.defaults(x)| && (Mentions(c.defaults(x)[j].0, s) || Mentions(c.defaults(x)[j].1, s))
  }

  lemma PromptsStep(c: Config, x: Sym, k: nat)
    ensures forall s :: !InPrompts(c, x, 0, s)
    ensures k < |c.prompts(x)| ==>
              forall s :: InPrompts(c, x, k + 1, s) <==> InPrompts(c, x, k, s) || Mentions(c.prompts(x)[k], s)
  {
    hide Mentions;
  }

  lemma DefaultsStep(c: Config, x: Sym, k: nat)
    ensures forall s :: !InDefaults(c, x, 0, s)
    ensures k < |c.defaults(x)| ==>
              forall s :: InDefaults(c, x, k + 1, s) <==>
                            InDefaults(c, x, k, s) || Mentions(c.defaults(x)[k].0, s) || Mentions(c.defaults(x)[k].1, s)
  {
    hide Mentions;
  }

  /** The definition of x mentions s. */
  ghost predicate Uses(c: Config, x: Sym, s: Sym) {
    || InPrompts(c, x, |c.prompts(x)|, s) || InDefaults(c, x, |c.defaults(x)|, s)
    || Mentions(c.rev(x), s) || Mentions(c.weak(x), s) || Mentions(c.direct(x), s)
  }

  /** The dependents are exactly those whose definitions mention the symbol; constants have none. */
  ghost predicate Built(c: Config) {
    && (forall x | x in c.defined :: !c.constant(x))
    && forall s, x :: x in c.deps(s) <==> x in c.defined && Uses(c, x, s) && !c.constant(s)
  }

  /** The dependents of a symbol are exactly those of the given ones whose definitions mention it. */
  ghost predicate DependentsOf(c: Config, syms: seq<Sym>, deps: Sym -> seq<Sym>) {
    forall s: Sym, z: Sym :: z in deps(s) <==> z in syms && Uses(c, z, s) && !c.constant(s)
  }

  /** Exactly x was added, and to the symbols that p says. */
  ghost predicate AddedFor(c: Config, deps: Sym -> seq<Sym>, deps': Sym -> seq<Sym>, x: Sym, p: Sym -> bool) {
    forall s: Sym, z: Sym :: z in deps'(s) <==> z in deps(s) || (z == x && p(s) && !c.constant(s))
  }

  lemma OneMoreSym(c: Config, syms: seq<Sym>, k: nat, deps: Sym -> seq<Sym>, deps': Sym -> seq<Sym>)
    requires k < |syms| && DependentsOf(c, syms[..k], deps) && AddedFor(c, deps, deps', syms[k], s => Uses(c, syms[k], s))
    ensures DependentsOf(c, syms[..k + 1], deps')
  {
    hide Uses;
    forall s: Sym, z: Sym ensures z in deps'(s) <==> z in syms[..k + 1] && Uses(c, z, s) && !c.constant(s) {
      assert z in deps(s) <==> z in syms[..k] && Uses(c, z, s) && !c.constant(s);
      assert z in syms[..k + 1] <==> z in syms[..k] || z == syms[k];
    }
  }

  // ---------------------------------------------------------------------------
  // Recording the dependents

  class Builder {
    const c: Config
    var dependents: Sym -> seq<Sym>     // _dependents; sets, here in some order

    constructor (c: Config)
      ensures this.c == c && forall s: Sym :: dependents(s) == []
    {
      this.c := c;
      dependents := (_ => []);
    }

    /** Exactly x was added, and to the symbols that p says. */
    twostate predicate Added(x: Sym, p: Sym -> bool)
      reads this
    {
      AddedFor(c, old(dependents), dependents, x, p)
    }

    /** _depend_on */
    method DependOn(x: Sym, e: Expr)
      modifies this
      ensures Added(x, s => Mentions(e, s))
      decreases e
    {
      match e
      case Leaf(s) => AddTo(s, x);
      case And(l, r) => DependOn(x, l); DependOn(x, r);
      case Or(l, r) => DependOn(x, l); DependOn(x, r);
      case Not(y) => DependOn(x, y);
      case Rel(_, s, t) => AddTo(s, x); AddTo(t, x);
    }

    method AddTo(s: Sym, x: Sym)
      modifies this
      ensures Added(x, y => y == s)
    {
      if !c.constant(s) && x !in dependents(s) {
        dependents := PutDeps(dependents, s, dependents(s) + [x]);
      }
    }

    /** The prompt conditions. */
    method DependOnPrompts(x: Sym)
      modifies this
      ensures Added(x, s => InPrompts(c, x, |c.prompts(x)|, s))
    {
      hide InPrompts;
      hide Mentions;
      var k := 0;
      PromptsStep(c, x, 0);
      while k < |c.prompts(x)|
        invariant 0 <= k <= |c.prompts(x)| && Added(x, s => InPrompts(c, x, k, s))
      {
        DependOn(x, c.prompts(x)[k]);
        PromptsStep(c, x, k);
        k := k + 1;
      }
    }

    /** The default values and their conditions. */
    method DependOnDefaults(x: Sym)
      modifies this
      ensures Added(x, s => InDefaults(c, x, |c.defaults(x)|, s))
    {
      hide InDefaults;
      hide Mentions;
      var k := 0;
      DefaultsStep(c, x, 0);
      while k < |c.defaults(x)|
        invariant 0 <= k <= |c.defaults(x)| && Added(x, s => InDefaults(c, x, k, s))
      {
        DependOn(x, c.defaults(x)[k].0);
        DependOn(x, c.defaults(x)[k].1);
        DefaultsStep(c, x, k);
        k := k + 1;
      }
    }

    /** The body of the loop of _build_dep: everything that the definition of x mentions. */
    method DependOnAll(x: Sym)
      modifies this
      ensures Added(x, s => Uses(c, x, s))
    {
      hide Mentions;
      hide InPrompts;
      hide InDefaults;
      DependOnPrompts(x);
      DependOnDefaults(x);
      DependOn(x, c.rev(x));
      DependOn(x, c.weak(x));
      DependOn(x, c.direct(x));
    }

    /** _build_dep */
    method BuildDep(syms: seq<Sym>)
      requires forall s: Sym :: dependents(s) == []
      modifies this
      ensures DependentsOf(c, syms, dependents)
    {
      hide Uses;
      assert DependentsOf(c, syms[..0], dependents);
      hide DependentsOf;
      hide AddedFor;
      var k := 0;
      while k < |syms|
        invariant 0 <= k <= |syms| && DependentsOf(c, syms[..k], dependents)
      {
        ghost var before := dependents;
        DependOnAll(syms[k]);
        OneMoreSym(c, syms, k, before, dependents);
        k := k + 1;
      }
      assert syms[..k] == syms;
    }
  }

  function PutDeps(f: Sym -> seq<Sym>, s: Sym, l: seq<Sym>): Sym -> seq<Sym> { (y: Sym) => if y == s then l else f(y) }

  // ---------------------------------------------------------------------------
  // From the recorded dependents to evaluation

  /** A measure that everything mentioned lowers. */
  ghost predicate Ranked(c: Config, r: Sym -> nat) {
    forall x, s | x in c.defined && s in c.defined && Uses(c, x, s) :: r(s) < r(x)
  }

  ghost function Depth(rank: Sym -> nat, clock: nat): Sym -> nat {
    (x: Sym) => if rank(x) < clock then clock - rank(x) else 0
  }

  /** Without a loop, the order in which the scan finishes the symbols is such a measure. */
  lemma ScanRanks(c: Config, mark: Sym -> Mark, rank: Sym -> nat, clock: nat)
    requires Built(c) && BlackOk(c.deps, mark, rank, clock) && (forall x | x in c.defined :: mark(x) == Black)
    ensures Ranked(c, Depth(rank, clock))
  {
    hide Uses;
    forall x, s | x in c.defined && s in c.defined && Uses(c, x, s) ensures Depth(rank, clock)(s) < Depth(rank, clock)(x) {
      assert x in c.deps(s);
      assert FinishedOk(c.deps, mark, rank, clock, s) && FinishedOk(c.deps, mark, rank, clock, x);
    }
  }

  lemma {:induction false} ExprIsOk(c: Config, e: Expr, b: nat, x: Sym)
    requires forall s | Mentions(e, s) :: SymOk(c, s, b, x)
    ensures ExprOk(c, e, b, x)
  {
    match e
    case Leaf(s) => assert Mentions(e, s);
    case And(l, r) =>
      assert forall s | Mentions(l, s) || Mentions(r, s) :: Mentions(e, s);
      ExprIsOk(c, l, b, x);
      ExprIsOk(c, r, b, x);
    case Or(l, r) =>
      assert forall s | Mentions(l, s) || Mentions(r, s) :: Mentions(e, s);
      ExprIsOk(c, l, b, x);
      ExprIsOk(c, r, b, x);
    case Not(y) =>
      assert forall s | Mentions(y, s) :: Mentions(e, s);
      ExprIsOk(c, y, b, x);
    case Rel(_, s, t) => assert Mentions(e, s) && Mentions(e, t);
  }

  /** The dependents are complete: if everything that may be read is lower, evaluation is well founded. */
  lemma BuiltIsComplete(c: Config, m: Sym -> nat)
    requires Built(c) && Founded(c.deps, c.tristate, Modules, c.defined, m)
    ensures WF(c.(m := m))
  {
    var c' := c.(m := m);
    forall x | x in c.defined ensures DefinitionOk(c', x) { CompleteAt(c, m, x); }
  }

  lemma CompleteAt(c: Config, m: Sym -> nat, x: Sym)
    requires Built(c) && Founded(c.deps, c.tristate, Modules, c.defined, m) && x in c.defined
    ensures DefinitionOk(c.(m := m), x)
  {
    var c', b := c.(m := m), m(x);
    forall s | Uses(c, x, s) ensures SymOk(c', s, b, x) {
      if s in c.defined { assert MayRead(c.deps, c.tristate, Modules, x, s); }
    }
    if c.tristate(x) && Modules in c.defined { assert MayRead(c.deps, c.tristate, Modules, x, Modules); }
    AllOk(c', b, x);
  }

  /** If every symbol that a definition mentions is in order, so are all its expressions. */
  lemma AllOk(c: Config, b: nat, x: Sym)
    requires forall s | Uses(c, x, s) :: SymOk(c, s, b, x)
    ensures forall k | 0 <= k < |c.prompts(x)| :: ExprOk(c, c.prompts(x)[k], b, x)
    ensures forall k | 0 <= k < |c.defaults(x)| :: ExprOk(c, c.defaults(x)[k].0, b, x) && ExprOk(c, c.defaults(x)[k].1, b, x)
    ensures ExprOk(c, c.rev(x), b, x) && ExprOk(c, c.weak(x), b, x) && ExprOk(c, c.direct(x), b, x)
  {
    hide ExprOk;
    hide SymOk;
    hide Mentions;
    forall k | 0 <= k < |c.prompts(x)| ensures ExprOk(c, c.prompts(x)[k], b, x) {
      forall s | Mentions(c.prompts(x)[k], s) ensures SymOk(c, s, b, x) { assert Uses(c, x, s); }
      ExprIsOk(c, c.prompts(x)[k], b, x);
    }
    forall k | 0 <= k < |c.defaults(x)| ensures ExprOk(c, c.defaults(x)[k].0, b, x) && ExprOk(c, c.defaults(x)[k].1, b, x) {
      forall s | Mentions(c.defaults(x)[k].0, s) || Mentions(c.defaults(x)[k].1, s) ensures SymOk(c, s, b, x) {
        assert Uses(c, x, s);
      }
      ExprIsOk(c, c.defaults(x)[k].0, b, x);
      ExprIsOk(c, c.defaults(x)[k].1, b, x);
    }
    ExprIsOk(c, c.rev(x), b, x);
    ExprIsOk(c, c.weak(x), b, x);
    ExprIsOk(c, c.direct(x), b, x);
  }

  /**
   The last steps of Kconfig.__init__: record the dependents and scan for loops.  It raises exactly if there is one.
   Otherwise everything that a definition mentions has a lower rank, and if MODULES needs no tristate symbol,
   evaluation is well founded.
   */
  method Finalize(c0: Config, syms: seq<Sym>)
    returns (c: Config, loop: Option<seq<Sym>>, ghost rank: Sym -> nat, ghost clock: nat)
    requires (forall x :: x in syms <==> x in c0.defined) && (forall x | x in c0.defined :: !c0.constant(x))
    ensures Built(c) && c == c0.(deps := c.deps)
    ensures loop.Some? ==> IsCycle(c.deps, loop.value) && loop.value[0] in c.defined
    ensures loop.None? ==> (forall l | IsCycle(c.deps, l) :: l[0] !in c.defined) && Ranked(c, Depth(rank, clock))
    ensures loop.None? && ModulesApart(c.deps, c.tristate, Modules, c.defined) ==>
              WF(c.(m := Measure(c.deps, Modules, rank, clock)))
  {
    hide Uses;
    hide DependentsOf;
    hide Built;
    hide Ranked;
    hide WF;
    hide Reachable;
    hide ModulesApart;
    hide BlackOk;
    var b := new Builder(c0);
    b.BuildDep(syms);
    c := c0.(deps := b.dependents);
    NowBuilt(c0, c, syms);
    var checker := new Checker(c.deps, c.defined);
    loop := checker.CheckAll(syms);
    rank, clock := checker.rank, checker.clock;
    forall x ensures x in c.defined <==> Reachable(c.deps, syms, x) { ReachesDefined(c, syms, x); }
    if loop.None? { Scanned(c, checker.mark, rank, clock); }
  }

  lemma Scanned(c: Config, mark: Sym -> Mark, rank: Sym -> nat, clock: nat)
    requires Built(c) && BlackOk(c.deps, mark, rank, clock) && (forall x | x in c.defined :: mark(x) == Black)
    ensures Ranked(c, Depth(rank, clock))
    ensures ModulesApart(c.deps, c.tristate, Modules, c.defined) ==> WF(c.(m := Measure(c.deps, Modules, rank, clock)))
  {
    hide *;
    ScanRanks(c, mark, rank, clock);
    if ModulesApart(c.deps, c.tristate, Modules, c.defined) {
      ScanFounds(c.deps, mark, rank, clock, c.tristate, Modules, c.defined);
      BuiltIsComplete(c, Measure(c.deps, Modules, rank, clock));
    }
  }

  lemma NowBuilt(c0: Config, c: Config, syms: seq<Sym>)
    requires (forall x :: x in syms <==> x in c0.defined) && (forall x | x in c0.defined :: !c0.constant(x))
    requires c == c0.(deps := c.deps)
    requires DependentsOf(c0, syms, c.deps)
    ensures Built(c)
  {
    forall s, x ensures x in c.deps(s) <==> x in c.defined && Uses(c, x, s) && !c.constant(s) {
      assert Uses(c, x, s) == Uses(c0, x, s);
    }
  }

  /** The scan reaches the defined symbols and no others. */
  lemma ReachesDefined(c: Config, syms: seq<Sym>, x: Sym)
    requires Built(c) && forall y :: y in syms <==> y in c.defined
    ensures x in c.defined <==> Reachable(c.deps, syms, x)
  {
    hide Uses;
    if x in c.defined {
      var k :| 0 <= k < |syms| && syms[k] == x;
      assert PathTo(c.deps, [x], syms[k], x);
    }
    if Reachable(c.deps, syms, x) {
      var p, k :| 0 <= k < |syms| && PathTo(c.deps, p, syms[k], x);
      if |p| > 1 { assert p[|p| - 2 + 1] in c.deps(p[|p| - 2]); }
    }
  }
}
