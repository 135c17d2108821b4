/**
 The memoised evaluator of scripts/kconfig/kconfiglib.py: cached values, and their selective invalidation, for every
 configuration with complete dependents, also one in which the evaluation of some symbols does not end.

 An evaluation may nest n calls of tri_value; None is the exception that is raised when it needs more.
 */
module KconfigCache {
  import opened KconfigExpr
  import opened KconfigEval
  import opened KconfigDeps
  import opened KconfigEnds
  import opened Options

  /** Whoever mentions a symbol is among its dependents. */
  ghost predicate Complete(c: Config) {
    && (forall x, s | x in c.defined && s in c.defined && Uses(c, x, s) :: x in c.deps(s))
    && (forall x, d | x in c.defined && d in c.deps(x) :: d in c.defined)
  }

  /** As _build_dep leaves them. */
  lemma BuiltCompletes(c: Config)
    requires Built(c)
    ensures Complete(c)
  {
    hide Uses;
  }

  lemma FoundedCompletes(c: Config)
    requires WF(c)
    ensures Complete(c)
  {
    forall x, s | x in c.defined && s in c.defined && Uses(c, x, s) ensures x in c.deps(s) {
      assert DefinitionOk(c, x);
      UsedIsOk(c, x, s);
    }
    forall x, d | x in c.defined && d in c.deps(x) ensures d in c.defined { assert DefinitionOk(c, x); }
  }

  lemma UsedIsOk(c: Config, x: Sym, s: Sym)
    requires DefinitionOk(c, x) && Uses(c, x, s)
    ensures SymOk(c, s, c.m(x), x)
  {
    hide Mentions;
    hide ExprOk;
    hide SymOk;
    var b := c.m(x);
    forall e: Expr | ExprOk(c, e, b, x) && Mentions(e, s) ensures SymOk(c, s, b, x) { MentionedIsOk(c, e, b, x, s); }
  }

  lemma {:induction false} MentionedIsOk(c: Config, e: Expr, b: nat, x: Sym, s: Sym)
    requires ExprOk(c, e, b, x) && Mentions(e, s)
    ensures SymOk(c, s, b, x)
  {
    match e
    case Leaf(_) =>
    case And(l, r) => if Mentions(l, s) { MentionedIsOk(c, l, b, x, s); } else { MentionedIsOk(c, r, b, x, s); }
    case Or(l, r) => if Mentions(l, s) { MentionedIsOk(c, l, b, x, s); } else { MentionedIsOk(c, r, b, x, s); }
    case Not(y) => MentionedIsOk(c, y, b, x, s);
    case Rel(_, _, _) =>
  }

  // ---------------------------------------------------------------------------
  // A cache whose entries follow from each other

  type Cache = Sym -> Option<Tri>

  function Put(f: Cache, x: Sym, v: Option<Tri>): Cache { (y: Sym) => if y == x then v else f(y) }

  function PutRank(f: Sym -> nat, x: Sym, n: nat): Sym -> nat { (y: Sym) => if y == x then n else f(y) }

  /** Nothing in f is lost or changed. */
  ghost predicate Kept(f: Cache, f': Cache) { forall x: Sym :: Refines(f(x), f'(x)) }

  /** Only what has a lower rank than b. */
  function Below(rd: Reads, rank: Sym -> nat, b: nat): Reads { (y: Sym) => if rank(y) < b then rd(y) else None }

  /** What is cached for x follows from rd, for the value only from what has a lower rank. */
  ghost predicate Supported(c: Config, u: User, vis: Cache, tri: Cache, rank: Sym -> nat, rd: Reads, x: Sym) {
    var low := Below(rd, rank, rank(x));
    && (vis(x).Some? ==> VisR(c, x, rd, rd(Modules)) == vis(x))
    && (tri(x).Some? ==> vis(x).Some? && TriR(c, u, x, low, low(Modules)) == tri(x))
  }

  ghost predicate CacheOk(c: Config, u: User, vis: Cache, tri: Cache, rank: Sym -> nat) {
    forall x | x in c.defined :: Supported(c, u, vis, tri, rank, tri, x)
  }

  ghost predicate Stamped(tri: Cache, rank: Sym -> nat, clock: nat) { forall y | tri(y).Some? :: rank(y) < clock }

  /** Support does not go away when more is known. */
  lemma SupportedMore(c: Config, u: User, vis: Cache, tri: Cache, rank: Sym -> nat, rd: Reads, rd': Reads, x: Sym)
    requires Supported(c, u, vis, tri, rank, rd, x) && KnowsMoreAt(c, x, rd, rd') && Refines(rd(Modules), rd'(Modules))
    ensures Supported(c, u, vis, tri, rank, rd', x)
  {
    hide VisR;
    hide TriR;
    hide Uses;
    var low, low' := Below(rd, rank, rank(x)), Below(rd', rank, rank(x));
    VisRefines(c, x, rd, rd', rd(Modules), rd'(Modules));
    TriRefines(c, u, x, low, low', low(Modules), low'(Modules));
  }

  /** The rank of a cached value bounds the calls that give it from scratch. */
  lemma {:induction false} CachedIsFuel(c: Config, u: User, vis: Cache, tri: Cache, rank: Sym -> nat, n: nat, x: Sym)
    requires CacheOk(c, u, vis, tri, rank) && x in c.defined && n > rank(x)
    ensures Refines(tri(x), TriF(c, u, false, n, x))
    decreases rank(x)
  {
    hide TriR;
    hide VisR;
    hide Uses;
    if tri(x).Some? {
      assert Supported(c, u, vis, tri, rank, tri, x);
      var low, rd := Below(tri, rank, rank(x)), Pass(c, u, false, n - 1);
      forall y | y in c.defined ensures Refines(low(y), rd(y)) {
        if rank(y) < rank(x) { CachedIsFuel(c, u, vis, tri, rank, n - 1, y); }
      }
      UndefinedModules(c, u, x, low, low(Modules), rd(Modules));
      TriRefines(c, u, x, low, rd, if Modules in c.defined then low(Modules) else rd(Modules), rd(Modules));
    }
  }

  /** If MODULES is not defined, its value is not asked for. */
  lemma UndefinedModules(c: Config, u: User, x: Sym, rd: Reads, mods: Option<Tri>, mods': Option<Tri>)
    ensures Modules !in c.defined ==> VisR(c, x, rd, mods) == VisR(c, x, rd, mods')
    ensures Modules !in c.defined ==> TriR(c, u, x, rd, mods) == TriR(c, u, x, rd, mods')
  {
    hide *;
    if Modules !in c.defined {
      TypeUnasked(c, x, mods, mods');
      VisUnasked(c, x, rd, mods, mods');
      TriUnasked(c, u, x, rd, mods, mods');
    }
  }

  lemma TypeUnasked(c: Config, x: Sym, mods: Option<Tri>, mods': Option<Tri>)
    requires Modules !in c.defined
    ensures TypeR(c, x, mods) == TypeR(c, x, mods')
  {
  }

  lemma VisUnasked(c: Config, x: Sym, rd: Reads, mods: Option<Tri>, mods': Option<Tri>)
    requires TypeR(c, x, mods) == TypeR(c, x, mods')
    ensures VisR(c, x, rd, mods) == VisR(c, x, rd, mods')
  {
    hide PromptsR;
    hide TypeR;
  }

  lemma TriUnasked(c: Config, u: User, x: Sym, rd: Reads, mods: Option<Tri>, mods': Option<Tri>)
    requires TypeR(c, x, mods) == TypeR(c, x, mods') && VisR(c, x, rd, mods) == VisR(c, x, rd, mods')
    ensures TriR(c, u, x, rd, mods) == TriR(c, u, x, rd, mods')
  {
    hide ExprR;
    hide ImpliedR;
    hide TypeR;
    hide VisR;
  }

  /** In every state of the cache, what is cached is the value from scratch. */
  lemma CacheIsRight(c: Config, u: User, vis: Cache, tri: Cache, rank: Sym -> nat, x: Sym)
    requires CacheOk(c, u, vis, tri, rank) && x in c.defined
    ensures Refines(tri(x), Val(c, u, x)) && Refines(vis(x), VisVal(c, u, x))
  {
    hide TriR;
    hide VisR;
    hide TriF;
    hide Uses;
    forall y | y in c.defined ensures Refines(tri(y), Val(c, u, y)) {
      CachedIsFuel(c, u, vis, tri, rank, rank(y) + 1, y);
      FuelIsVal(c, u, rank(y) + 1, y);
    }
    assert Supported(c, u, vis, tri, rank, tri, x);
    var mods := if Modules in c.defined then tri(Modules) else Val(c, u, Modules);
    UndefinedModules(c, u, x, tri, tri(Modules), mods);
    VisRefines(c, x, tri, Vals(c, u), mods, Val(c, u, Modules));
  }

  /** A visibility from scratch with n calls is the one the cache would give. */
  lemma FuelIsVis(c: Config, u: User, n: nat, x: Sym)
    ensures Refines(VisR(c, x, Pass(c, u, false, n), TriF(c, u, false, n, Modules)), VisVal(c, u, x))
  {
    hide VisR;
    hide TriF;
    hide Uses;
    forall y: Sym ensures Refines(TriF(c, u, false, n, y), Val(c, u, y)) { FuelIsVal(c, u, n, y); }
    VisRefines(c, x, Pass(c, u, false, n), Vals(c, u), TriF(c, u, false, n, Modules), Val(c, u, Modules));
  }

  lemma AddVis(c: Config, u: User, vis: Cache, tri: Cache, rank: Sym -> nat, x: Sym, v: Option<Tri>)
    requires CacheOk(c, u, vis, tri, rank) && x in c.defined && VisR(c, x, tri, tri(Modules)) == v && v.Some?
    ensures CacheOk(c, u, Put(vis, x, v), tri, rank) && Kept(vis, Put(vis, x, v))
  {
    hide TriR;
    hide VisR;
    var vis' := Put(vis, x, v);
    forall y | y in c.defined ensures Supported(c, u, vis', tri, rank, tri, y) {
      assert Supported(c, u, vis, tri, rank, tri, y);
    }
    assert Supported(c, u, vis, tri, rank, tri, x);
  }

  /** The rank of a new value is above all others; a value that is there already keeps its rank. */
  function Stamp(tri: Cache, rank: Sym -> nat, x: Sym, clock: nat): Sym -> nat {
    if tri(x).None? then PutRank(rank, x, clock) else rank
  }

  lemma AddTri(c: Config, u: User, vis: Cache, tri: Cache, rank: Sym -> nat, clock: nat, x: Sym, v: Option<Tri>)
    requires CacheOk(c, u, vis, tri, rank) && Stamped(tri, rank, clock) && x in c.defined && vis(x).Some?
    requires TriR(c, u, x, tri, tri(Modules)) == v && v.Some?
    ensures var tri', rank' := Put(tri, x, v), Stamp(tri, rank, x, clock);
            CacheOk(c, u, vis, tri', rank') && Kept(tri, tri') && Stamped(tri', rank', clock + 1)
  {
    hide TriR;
    hide VisR;
    hide Uses;
    var tri', rank' := Put(tri, x, v), Stamp(tri, rank, x, clock);
    if tri(x).Some? { SameValue(c, u, vis, tri, rank, clock, x, v); }
    forall y | y in c.defined && (y != x || tri(x).Some?) ensures Supported(c, u, vis, tri', rank', tri', y) {
      assert Supported(c, u, vis, tri, rank, tri, y);
      var low, low' := Below(tri, rank, rank(y)), Below(tri', rank', rank'(y));
      VisRefines(c, y, tri, tri', tri(Modules), tri'(Modules));
      TriRefines(c, u, y, low, low', low(Modules), low'(Modules));
    }
    if tri(x).None? {
      assert Supported(c, u, vis, tri, rank, tri, x);
      var low' := Below(tri', rank', clock);
      VisRefines(c, x, tri, tri', tri(Modules), tri'(Modules));
      TriRefines(c, u, x, tri, low', tri(Modules), low'(Modules));
    }
  }

  /** A value that is computed although it is cached by now is the cached one. */
  lemma SameValue(c: Config, u: User, vis: Cache, tri: Cache, rank: Sym -> nat, clock: nat, x: Sym, v: Option<Tri>)
    requires CacheOk(c, u, vis, tri, rank) && Stamped(tri, rank, clock) && x in c.defined && tri(x).Some?
    requires TriR(c, u, x, tri, tri(Modules)) == v && v.Some?
    ensures v == tri(x)
  {
    hide TriR;
    hide VisR;
    hide Uses;
    assert Supported(c, u, vis, tri, rank, tri, x);
    var low := Below(tri, rank, rank(x));
    TriRefines(c, u, x, low, tri, low(Modules), tri(Modules));
  }

  // ---------------------------------------------------------------------------
  // Loops

  lemma {:induction false} PromptsNone(c: Config, x: Sym, k: nat, n: nat, rd: Reads)
    requires k <= n <= |c.prompts(x)| && PromptsR(c, x, k, rd).None?
    ensures PromptsR(c, x, n, rd).None?
  {
    hide ExprR;
    if k < n { PromptsNone(c, x, k, n - 1, rd); }
  }

  /** The conditions of the first k defaults are not met. */
  ghost predicate Skipped(c: Config, x: Sym, k: nat, rd: Reads) {
    k <= |c.defaults(x)| && forall j | 0 <= j < k :: ExprR(c, c.defaults(x)[j].1, rd) == Some(0)
  }

  lemma {:induction false} SkippedDefaults(c: Config, x: Sym, k: nat, rd: Reads)
    requires Skipped(c, x, k, rd)
    ensures DefaultsR(c, x, 0, rd) == DefaultsR(c, x, k, rd)
  {
    hide ExprR;
    if k > 0 { SkippedDefaults(c, x, k - 1, rd); }
  }

  lemma SkippedKept(c: Config, x: Sym, k: nat, rd: Reads, rd': Reads)
    requires Skipped(c, x, k, rd) && Kept(rd, rd')
    ensures Skipped(c, x, k, rd')
  {
    hide ExprR;
    forall j | 0 <= j < k ensures ExprR(c, c.defaults(x)[j].1, rd') == Some(0) {
      ExprRefines(c, c.defaults(x)[j].1, rd, rd');
    }
  }

  // ---------------------------------------------------------------------------
  // The evaluator

  /** A result that is that of an evaluation from scratch, if this ends, and of what is cached. */
  ghost predicate Between(scratch: Option<Tri>, r: Option<Tri>, cache: Option<Tri>) {
    Refines(scratch, r) && Refines(r, cache)
  }

  class Evaluator {
    const c: Config
    var user: User
    var vis: Cache                // _cached_vis
    var tri: Cache                // _cached_tri_val
    ghost var cached: set<Sym>    // the symbols with a cached visibility
    ghost var rank: Sym -> nat    // when a value was cached
    ghost var clock: nat

    ghost predicate Valid()
      reads this
    {
      && Complete(c) && CacheOk(c, user, vis, tri, rank)
      && Stamped(tri, rank, clock) && Tracked(c, cached, vis)
    }

    constructor (c: Config)
      requires Complete(c)
      ensures Valid() && this.c == c && forall x: Sym :: user(x) == None
    {
      this.c := c;
      user, vis, tri, cached := (_ => None), (_ => None), (_ => None), {};
      rank, clock := (_ => 0), 0;
    }

    // -------------------------------------------------------------------------
    // Reading

    /** A read keeps the cache correct and forgets nothing. */
    twostate predicate Stays()
      reads this
    {
      Valid() && user == old(user) && Kept(old(vis), vis) && Kept(old(tri), tri)
    }

    /** The reads of an evaluation from scratch that may nest n more calls. */
    ghost function Scratch(n: nat): Reads
      reads this
    {
      Pass(c, user, false, n)
    }

    /** The value of a symbol in an expression. */
    method SymValue(s: Sym, n: nat) returns (r: Option<Tri>)
      requires Valid()
      modifies this
      ensures Stays() && Between(SymR(c, s, Scratch(n)), r, SymR(c, s, tri))
      decreases n, 1
    {
      hide TriF;
      hide CacheOk;
      if s in c.defined {
        r := TriValue(s, n);
      } else {
        r := Some(c.fixed(s));
      }
    }

    /** expr_value */
    method ExprValue(e: Expr, n: nat) returns (r: Option<Tri>)
      requires Valid()
      modifies this
      ensures Stays() && Between(ExprR(c, e, Scratch(n)), r, ExprR(c, e, tri))
      decreases n, 2, e
    {
      hide Pass;
      hide CacheOk;
      match e
      case Leaf(s) => r := SymValue(s, n);
      case And(x, y) =>
        r := ExprValue(x, n);
        if r.Some? && r.value != 0 {
          ghost var t := tri;
          var r2 := ExprValue(y, n);
          ExprRefines(c, x, t, tri);
          r := if r2.None? then None else Some(Min(r.value, r2.value));
        }
      case Or(x, y) =>
        r := ExprValue(x, n);
        if r.Some? && r.value != 2 {
          ghost var t := tri;
          var r2 := ExprValue(y, n);
          ExprRefines(c, x, t, tri);
          r := if r2.None? then None else Some(Max(r.value, r2.value));
        }
      case Not(y) =>
        r := ExprValue(y, n);
        r := if r.None? then None else Some(2 - r.value);
      case Rel(op, s, t) =>
        r := SymValue(s, n);
        if r.Some? {
          var r2 := SymValue(t, n);
          r := if r2.None? then None else Some(if Holds(op, c.comp(s, t, r.value, r2.value)) then 2 else 0);
        }
    }

    /** Symbol.type is TRISTATE */
    method IsTristate(x: Sym, n: nat) returns (r: Option<Tri>)
      requires Valid() && x in c.defined
      modifies this
      ensures Stays() && Between(TypeR(c, x, Scratch(n)(Modules)), r, TypeR(c, x, tri(Modules)))
      decreases n, 1
    {
      hide TriF;
      hide CacheOk;
      if !c.tristate(x) {
        return Some(0);
      }
      var m := Some(c.fixed(Modules));
      if Modules in c.defined {
        m := TriValue(Modules, n);
      }
      r := if m.None? then None else Some(if m.value != 0 then 2 else 0);
    }

    /** Symbol.visibility and _visibility */
    method Visibility(x: Sym, n: nat) returns (r: Option<Tri>)
      requires Valid() && x in c.defined
      modifies this
      ensures Stays() && Refines(r, VisVal(c, user, x)) && Refines(r, vis(x))
      ensures Between(VisR(c, x, Scratch(n), Scratch(n)(Modules)), r, VisR(c, x, tri, tri(Modules)))
      decreases n, 5
    {
      hide VisR;
      hide TriF;
      hide TriR;
      CacheIsRight(c, user, vis, tri, rank, x);
      FuelIsVis(c, user, n, x);
      assert Supported(c, user, vis, tri, rank, tri, x);
      if vis(x).Some? {
        return vis(x);
      }
      r := ComputeVisibility(x, n);
      if r.Some? {
        AddVis(c, user, vis, tri, rank, x, r);
        vis := Put(vis, x, r);
        cached := cached + {x};
        CacheIsRight(c, user, vis, tri, rank, x);
      }
    }

    /** The loop over the prompts. */
    method PromptValue(x: Sym, n: nat) returns (r: Option<Tri>)
      requires Valid() && x in c.defined
      modifies this
      ensures Stays()
      ensures Between(PromptsR(c, x, |c.prompts(x)|, Scratch(n)), r, PromptsR(c, x, |c.prompts(x)|, tri))
      decreases n, 3
    {
      hide Pass;
      hide CacheOk;
      hide ExprR;
      var v, k := 0, 0;
      while k < |c.prompts(x)|
        invariant 0 <= k <= |c.prompts(x)| && Stays()
        invariant Between(PromptsR(c, x, k, Scratch(n)), Some(v), PromptsR(c, x, k, tri))
      {
        ghost var t := tri;
        var d := ExprValue(c.prompts(x)[k], n);
        if d.None? {
          PromptsNone(c, x, k + 1, |c.prompts(x)|, Scratch(n));
          return None;
        }
        PromptsRefine(c, x, k, t, tri);
        v := Max(v, d.value);
        k := k + 1;
      }
      return Some(v);
    }

    method ComputeVisibility(x: Sym, n: nat) returns (r: Option<Tri>)
      requires Valid() && x in c.defined
      modifies this
      ensures Stays() && Between(VisR(c, x, Scratch(n), Scratch(n)(Modules)), r, VisR(c, x, tri, tri(Modules)))
      decreases n, 4
    {
      hide Pass;
      hide CacheOk;
      hide PromptsR;
      hide TypeR;
      r := PromptValue(x, n);
      if r == Some(1) {
        ghost var t := tri;
        var ty := IsTristate(x, n);
        PromptsRefine(c, x, |c.prompts(x)|, t, tri);
        r := if ty.None? then None else Some(if ty.value == 0 then 2 else 1);
      }
    }

    /** tri_value: the value from scratch, if this ends within n nested calls, and never another one. */
    method TriValue(x: Sym, n: nat) returns (r: Option<Tri>)
      requires Valid() && x in c.defined
      modifies this
      ensures Stays() && Refines(TriF(c, user, false, n, x), r) && Refines(r, Val(c, user, x)) && Refines(r, tri(x))
      decreases n, 0
    {
      hide TriR;
      hide VisR;
      CacheIsRight(c, user, vis, tri, rank, x);
      FuelIsVal(c, user, n, x);
      if tri(x).Some? {
        return tri(x);
      }
      if n == 0 {
        return None;
      }
      r := ComputeTri(x, n - 1);
      if r.Some? {
        AddTri(c, user, vis, tri, rank, clock, x, r);
        rank, clock := Stamp(tri, rank, x, clock), clock + 1;
        tri := Put(tri, x, r);
        CacheIsRight(c, user, vis, tri, rank, x);
      }
    }

    method ComputeTri(x: Sym, n: nat) returns (r: Option<Tri>)
      requires Valid() && x in c.defined
      modifies this
      ensures Stays() && (r.Some? ==> vis(x).Some?)
      ensures Between(TriR(c, user, x, Scratch(n), Scratch(n)(Modules)), r, TriR(c, user, x, tri, tri(Modules)))
      decreases n, 8
    {
      hide Pass;
      hide CacheOk;
      hide ExprR;
      hide TypeR;
      hide SelectedR;
      r := SelectedValue(x, n);
      if r == Some(1) {
        ghost var t := tri;
        var ty := IsTristate(x, n);
        SelectedRefines(c, user, x, t, tri);
        if ty.None? {
          return None;
        }
        if ty.value == 0 {
          return Some(2);
        }
        ghost var t2 := tri;
        var w := ExprValue(c.weak(x), n);
        SelectedRefines(c, user, x, t2, tri);
        TypeRefines(c, x, t2(Modules), tri(Modules));
        r := if w.None? then None else Some(if w.value == 2 then 2 else 1);
      }
    }

    method SelectedValue(x: Sym, n: nat) returns (r: Option<Tri>)
      requires Valid() && x in c.defined
      modifies this
      ensures Stays() && (r.Some? ==> vis(x).Some?)
      ensures Between(SelectedR(c, user, x, Scratch(n), Scratch(n)(Modules)), r, SelectedR(c, user, x, tri, tri(Modules)))
      decreases n, 7
    {
      hide Pass;
      hide CacheOk;
      hide ExprR;
      hide OwnR;
      r := OwnValue(x, n);
      if r.None? {
        return None;
      }
      ghost var t := tri;
      var dep := ExprValue(c.rev(x), n);
      OwnRefines(c, user, x, t, tri, t(Modules), tri(Modules));
      if dep.None? {
        return None;
      }
      if dep.value != 0 {
        ghost var t2 := tri;
        var direct := ExprValue(c.direct(x), n);   // compared with dep to warn
        OwnRefines(c, user, x, t2, tri, t2(Modules), tri(Modules));
        ExprRefines(c, c.rev(x), t2, tri);
        r := if direct.None? then None else Some(Max(dep.value, r.value));
      }
    }

    /** The loop over the defaults. */
    method DefaultValue(x: Sym, n: nat) returns (r: Option<Tri>)
      requires Valid() && x in c.defined
      modifies this
      ensures Stays() && Between(DefaultsR(c, x, 0, Scratch(n)), r, DefaultsR(c, x, 0, tri))
      decreases n, 4
    {
      hide Pass;
      hide CacheOk;
      hide ExprR;
      var k := 0;
      while k < |c.defaults(x)|
        invariant 0 <= k <= |c.defaults(x)| && Stays() && Skipped(c, x, k, tri)
        invariant Refines(DefaultsR(c, x, 0, Scratch(n)), DefaultsR(c, x, k, Scratch(n)))
      {
        ghost var t := tri;
        var cond := ExprValue(c.defaults(x)[k].1, n);
        SkippedKept(c, x, k, t, tri);
        SkippedDefaults(c, x, k, tri);
        if cond.None? {
          return None;
        }
        if cond.value != 0 {
          ghost var t2 := tri;
          var d := ExprValue(c.defaults(x)[k].0, n);
          SkippedKept(c, x, k, t2, tri);
          SkippedDefaults(c, x, k, tri);
          ExprRefines(c, c.defaults(x)[k].1, t2, tri);
          return if d.None? then None else Some(Min(d.value, cond.value));
        }
        k := k + 1;
      }
      SkippedDefaults(c, x, k, tri);
      return Some(0);
    }

    method OwnValue(x: Sym, n: nat) returns (r: Option<Tri>)
      requires Valid() && x in c.defined
      modifies this
      ensures Stays() && (r.Some? ==> vis(x).Some?)
      ensures Between(OwnR(c, user, x, Scratch(n), Scratch(n)(Modules)), r, OwnR(c, user, x, tri, tri(Modules)))
      decreases n, 6
    {
      hide Pass;
      hide CacheOk;
      hide VisR;
      hide ImpliedR;
      var vs := Visibility(x, n);
      if vs.None? {
        return None;
      }
      if vs.value != 0 && user(x).Some? {
        return Some(Min(user(x).value, vs.value));
      }
      ghost var t := tri;
      r := ImpliedValue(x, n);
      VisRefines(c, x, t, tri, t(Modules), tri(Modules));
    }

    /** The default, and the weak reverse dependencies. */
    method ImpliedValue(x: Sym, n: nat) returns (r: Option<Tri>)
      requires Valid() && x in c.defined
      modifies this
      ensures Stays() && Between(ImpliedR(c, x, Scratch(n)), r, ImpliedR(c, x, tri))
      decreases n, 5
    {
      hide Pass;
      hide CacheOk;
      hide ExprR;
      hide DefaultsR;
      r := DefaultValue(x, n);
      if r.None? {
        return None;
      }
      ghost var t := tri;
      var dep := ExprValue(c.weak(x), n);
      DefaultsRefine(c, x, 0, t, tri);
      if dep.None? {
        return None;
      }
      if dep.value != 0 {
        ghost var t2 := tri;
        var direct := ExprValue(c.direct(x), n);
        DefaultsRefine(c, x, 0, t2, tri);
        ExprRefines(c, c.weak(x), t2, tri);
        if direct.None? {
          return None;
        }
        if direct.value != 0 {
          r := Some(Max(dep.value, r.value));
        }
      }
    }

    // -------------------------------------------------------------------------
    // Invalidation

    /** Symbol._invalidate */
    method Invalidate(x: Sym)
      modifies this`vis, this`tri, this`cached
      ensures vis == Put(old(vis), x, None) && tri == Put(old(tri), x, None) && cached == old(cached) - {x}
      ensures vis(x).None? && tri(x).None? && Kept(vis, old(vis)) && Kept(tri, old(tri))
      ensures Tracked(c, old(cached), old(vis)) ==> Tracked(c, cached, vis)
    {
      vis := Put(vis, x, None);
      tri := Put(tri, x, None);
      cached := cached - {x};
    }

    /** Kconfig._invalidate_all */
    method InvalidateAll()
      modifies this`vis, this`tri, this`cached
      ensures forall x | x in c.defined :: vis(x).None? && tri(x).None?
      ensures cached == old(cached) - c.defined && Kept(vis, old(vis)) && Kept(tri, old(tri))
    {
      hide Tracked;
      var todo := c.defined;
      while todo != {}
        invariant todo <= c.defined
        invariant forall x | x in c.defined - todo :: vis(x).None? && tri(x).None?
        invariant cached == old(cached) - (c.defined - todo)
        invariant Kept(vis, old(vis)) && Kept(tri, old(tri))
        decreases todo
      {
        var x :| x in todo;
        Invalidate(x);
        todo := todo - {x};
      }
    }

    /**
     Symbol._rec_invalidate.  The cache `full` was correct for the assignment u.  What is left of it still is, except that
     symbols in `pending`, whose dependents are being invalidated by a caller, may have been read and be gone.
     */
    method RecInvalidate(x: Sym, ghost u: User, ghost full: Cache, ghost pending: set<Sym>)
      requires Complete(c) && x in c.defined && OkExcept(c, u, vis, tri, rank, full, pending) && Tracked(c, cached, vis)
      modifies this`vis, this`tri, this`cached
      ensures OkExcept(c, u, vis, tri, rank, full, pending) && vis(x).None? && tri(x).None?
      ensures Kept(vis, old(vis)) && Kept(tri, old(tri))
      ensures |cached| <= |old(cached)| && Tracked(c, cached, vis)
      decreases |cached|, if vis(x).Some? then 0 else 2
    {
      hide *;
      if x == Modules {
        CountAll(c, cached);
        ghost var before, vis0, tri0 := cached, vis, tri;
        InvalidateAll();
        NothingCached(c, u, vis0, tri0, vis, tri, rank, full, pending);
        NothingTracked(c, before, vis0, cached, vis, x);
      } else {
        BeginInvalidate(c, u, vis, tri, rank, full, pending, x);
        CachedIsTracked(c, cached, vis, x);
        CountDrops(cached, x);
        Invalidate(x);
        ghost var v0, t0 := vis, tri;
        RecInvalidateDependents(x, u, full, pending + {x});
        KeptAgain(vis, v0, old(vis), x);
        KeptAgain(tri, t0, old(tri), x);
        EndInvalidate(c, u, vis, tri, rank, full, pending, x);
      }
    }

    /** Its loop over the dependents: those without a cached visibility are skipped. */
    method RecInvalidateDependents(x: Sym, ghost u: User, ghost full: Cache, ghost pending: set<Sym>)
      requires Complete(c) && x in c.defined && OkExcept(c, u, vis, tri, rank, full, pending) && Tracked(c, cached, vis)
      modifies this`vis, this`tri, this`cached
      ensures OkExcept(c, u, vis, tri, rank, full, pending) && AllGone(vis, c.deps(x), |c.deps(x)|)
      ensures Kept(vis, old(vis)) && Kept(tri, old(tri))
      ensures |cached| <= |old(cached)| && Tracked(c, cached, vis)
      decreases |cached|, 1
    {
      hide *;
      var k := 0;
      NoneYet(vis, c.deps(x));
      KeptSelf(vis);
      KeptSelf(tri);
      while k < |c.deps(x)|
        invariant 0 <= k <= |c.deps(x)| && OkExcept(c, u, vis, tri, rank, full, pending)
        invariant AllGone(vis, c.deps(x), k) && Kept(vis, old(vis)) && Kept(tri, old(tri))
        invariant Tracked(c, cached, vis) && |cached| <= |old(cached)|
      {
        var item := c.deps(x)[k];
        ghost var v0, t0 := vis, tri;
        if vis(item).Some? {
          DependentsDefined(c, x, item);
          RecInvalidate(item, u, full, pending);
          KeptAgain(vis, v0, old(vis), x);
          KeptAgain(tri, t0, old(tri), x);
          StayGone(vis, v0, c.deps(x), k);
        }
        OneMoreGone(vis, c.deps(x), k);
        k := k + 1;
      }
    }

    /** The assignment changes and Symbol._rec_invalidate_if_has_prompt follows. */
    method ChangeUser(x: Sym, v: Option<Tri>)
      requires Valid() && x in c.defined
      modifies this
      ensures Valid() && (forall y: Sym :: user(y) == if y == x then v else old(user)(y))
    {
      hide *;
      Unpack();
      ghost var u, full := user, tri;
      user := Put(user, x, v);
      PutFacts(u, x, v);
      NoneGone(c, u, vis, tri, rank);
      if c.prompts(x) != [] {
        RecInvalidate(x, u, full, {});
      }
      StillStamped(c, u, vis, tri, rank, full, clock);
      Restored(c, u, user, vis, tri, rank, full, x);
      Pack();
    }

    lemma Unpack()
      requires Valid()
      ensures Complete(c) && CacheOk(c, user, vis, tri, rank) && Stamped(tri, rank, clock) && Tracked(c, cached, vis)
    {
    }

    lemma Pack()
      requires Complete(c) && CacheOk(c, user, vis, tri, rank) && Stamped(tri, rank, clock) && Tracked(c, cached, vis)
      ensures Valid()
    {
    }

    /** Symbol.set_value, for the values n, m and y: whether the value is valid for the symbol's type. */
    method SetValue(x: Sym, v: Tri) returns (ok: bool)
      requires Valid() && x in c.defined
      modifies this
      ensures Valid() && (ok <==> c.tristate(x) || v != 1 || old(user)(x) == Some(v))
      ensures forall y: Sym :: user(y) == if ok && y == x then Some(v) else old(user)(y)
    {
      hide CacheOk;
      if user(x) == Some(v) {
        return true;
      }
      if !c.tristate(x) && v == 1 {
        return false;
      }
      ChangeUser(x, Some(v));
      return true;
    }

    /** Symbol.unset_value */
    method UnsetValue(x: Sym)
      requires Valid() && x in c.defined
      modifies this
      ensures Valid() && forall y: Sym :: user(y) == if y == x then None else old(user)(y)
    {
      hide CacheOk;
      if user(x).Some? {
        ChangeUser(x, None);
      }
    }
  }

  // ---------------------------------------------------------------------------
  // Small facts

  lemma TypeRefines(c: Config, x: Sym, mods: Option<Tri>, mods': Option<Tri>)
    requires Refines(mods, mods')
    ensures Refines(TypeR(c, x, mods), TypeR(c, x, mods'))
  {
  }

  lemma SelectedRefines(c: Config, u: User, x: Sym, rd: Reads, rd': Reads)
    requires Kept(rd, rd')
    ensures Refines(SelectedR(c, u, x, rd, rd(Modules)), SelectedR(c, u, x, rd', rd'(Modules)))
  {
    hide ExprR;
    hide OwnR;
    OwnRefines(c, u, x, rd, rd', rd(Modules), rd'(Modules));
    ExprRefines(c, c.rev(x), rd, rd');
    ExprRefines(c, c.direct(x), rd, rd');
  }

  /** The set of symbols with a cached visibility. */
  ghost predicate Tracked(c: Config, cached: set<Sym>, vis: Cache) {
    forall y :: y in cached <==> y in c.defined && vis(y).Some?
  }

  lemma CachedIsTracked(c: Config, cached: set<Sym>, vis: Cache, x: Sym)
    requires Tracked(c, cached, vis) && x in c.defined
    ensures x in cached <==> vis(x).Some?
  {
  }

  lemma PutFacts(f: Cache, x: Sym, v: Option<Tri>)
    ensures forall y: Sym :: Put(f, x, v)(y) == if y == x then v else f(y)
  {
  }

  lemma StillStamped(c: Config, u: User, vis: Cache, tri: Cache, rank: Sym -> nat, full: Cache, clock: nat)
    requires OkExcept(c, u, vis, tri, rank, full, {}) && Stamped(full, rank, clock)
    ensures Stamped(tri, rank, clock)
  {
  }

  lemma CountAll(c: Config, cached: set<Sym>)
    ensures |cached - c.defined| <= |cached|
  {
    assert cached == (cached - c.defined) + (cached * c.defined);
  }

  lemma NothingTracked(c: Config, before: set<Sym>, vis: Cache, cached: set<Sym>, vis': Cache, x: Sym)
    requires Tracked(c, before, vis) && cached == before - c.defined && forall y | y in c.defined :: vis'(y).None?
    ensures Tracked(c, cached, vis')
  {
  }

  lemma KeptAgain(f: Cache, g: Cache, h: Cache, x: Sym)
    requires Kept(f, g) && Kept(g, h)
    ensures Kept(f, h) && (g(x).None? ==> f(x).None?)
  {
  }

  lemma KeptSelf(f: Cache)
    ensures Kept(f, f)
  {
  }

  /** The first k of these symbols are not cached. */
  ghost predicate AllGone(vis: Cache, l: seq<Sym>, k: nat) { k <= |l| && forall j | 0 <= j < k :: vis(l[j]).None? }

  lemma NoneYet(vis: Cache, l: seq<Sym>)
    ensures AllGone(vis, l, 0)
  {
  }

  lemma OneMoreGone(vis: Cache, l: seq<Sym>, k: nat)
    requires AllGone(vis, l, k) && k < |l| && vis(l[k]).None?
    ensures AllGone(vis, l, k + 1)
  {
  }

  lemma StayGone(vis: Cache, vis0: Cache, l: seq<Sym>, k: nat)
    requires AllGone(vis0, l, k) && Kept(vis, vis0)
    ensures AllGone(vis, l, k)
  {
  }

  lemma CountDrops(s: set<Sym>, x: Sym)
    ensures |s - {x}| <= |s| && (x in s ==> |s - {x}| < |s|)
  {
    if x !in s { assert s - {x} == s; }
  }

  lemma DependentsDefined(c: Config, x: Sym, d: Sym)
    requires Complete(c) && x in c.defined && d in c.deps(x)
    ensures d in c.defined
  {
  }

  // ---------------------------------------------------------------------------
  // What holds while an invalidation is under way

  /** What is left of a cache, and the former values of what is gone. */
  function Remembered(tri: Cache, full: Cache, gone: set<Sym>): Reads {
    (y: Sym) => if tri(y).None? && y in gone then full(y) else tri(y)
  }

  ghost predicate OkExcept(c: Config, u: User, vis: Cache, tri: Cache, rank: Sym -> nat, full: Cache, gone: set<Sym>) {
    && Kept(tri, full)
    && forall z | z in c.defined :: Supported(c, u, vis, tri, rank, Remembered(tri, full, gone), z)
  }

  lemma NoneGone(c: Config, u: User, vis: Cache, tri: Cache, rank: Sym -> nat)
    requires CacheOk(c, u, vis, tri, rank)
    ensures OkExcept(c, u, vis, tri, rank, tri, {})
  {
    hide Supported;
    hide Uses;
    forall z | z in c.defined ensures Supported(c, u, vis, tri, rank, Remembered(tri, tri, {}), z) {
      SupportedMore(c, u, vis, tri, rank, tri, Remembered(tri, tri, {}), z);
    }
  }

  lemma NothingCached(c: Config, u: User, vis: Cache, tri: Cache, vis': Cache, tri': Cache, rank: Sym -> nat,
                      full: Cache, gone: set<Sym>)
    requires OkExcept(c, u, vis, tri, rank, full, gone) && Kept(tri', tri)
    requires forall x | x in c.defined :: vis'(x).None? && tri'(x).None?
    ensures OkExcept(c, u, vis', tri', rank, full, gone)
  {
    hide VisR;
    hide TriR;
  }

  lemma BeginInvalidate(c: Config, u: User, vis: Cache, tri: Cache, rank: Sym -> nat, full: Cache, gone: set<Sym>, x: Sym)
    requires OkExcept(c, u, vis, tri, rank, full, gone)
    ensures OkExcept(c, u, Put(vis, x, None), Put(tri, x, None), rank, full, gone + {x})
  {
    hide VisR;
    hide TriR;
    hide Uses;
    var vis', tri' := Put(vis, x, None), Put(tri, x, None);
    var rd, rd' := Remembered(tri, full, gone), Remembered(tri', full, gone + {x});
    forall z | z in c.defined ensures Supported(c, u, vis', tri', rank, rd', z) {
      SupportedMore(c, u, vis, tri, rank, rd, rd', z);
    }
  }

  /** Only the dependents of x can have read it, and these are not cached any more. */
  lemma EndInvalidate(c: Config, u: User, vis: Cache, tri: Cache, rank: Sym -> nat, full: Cache, gone: set<Sym>, x: Sym)
    requires Complete(c) && x in c.defined && x != Modules && OkExcept(c, u, vis, tri, rank, full, gone + {x})
    requires AllGone(vis, c.deps(x), |c.deps(x)|)
    ensures OkExcept(c, u, vis, tri, rank, full, gone)
  {
    hide VisR;
    hide TriR;
    hide Uses;
    var rd, rd' := Remembered(tri, full, gone + {x}), Remembered(tri, full, gone);
    forall z | z in c.defined ensures Supported(c, u, vis, tri, rank, rd', z) {
      assert Supported(c, u, vis, tri, rank, rd, z);
      if vis(z).Some? {
        assert z !in c.deps(x) && !Uses(c, z, x);
        SupportedMore(c, u, vis, tri, rank, rd, rd', z);
      }
    }
  }

  /** A symbol without a prompt is never visible, and then the user's value does not matter. */
  lemma SameForUser(c: Config, u: User, u': User, x: Sym, rd: Reads, mods: Option<Tri>)
    requires SameUser(c, u, u', x)
    ensures TriR(c, u', x, rd, mods) == TriR(c, u, x, rd, mods)
  {
    hide ExprR;
    hide ImpliedR;
    assert c.prompts(x) == [] ==> PromptsR(c, x, 0, rd) == Some(0);
  }

  /** What is still cached after an invalidation is correct for the new assignment. */
  lemma Restored(c: Config, u: User, u': User, vis: Cache, tri: Cache, rank: Sym -> nat, full: Cache, x: Sym)
    requires x in c.defined && OkExcept(c, u, vis, tri, rank, full, {}) && (forall y: Sym | y != x :: u'(y) == u(y))
    requires c.prompts(x) == [] || (vis(x).None? && tri(x).None?)
    ensures CacheOk(c, u', vis, tri, rank)
  {
    hide VisR;
    hide TriR;
    hide Uses;
    forall z | z in c.defined ensures Supported(c, u', vis, tri, rank, tri, z) {
      SupportedMore(c, u, vis, tri, rank, Remembered(tri, full, {}), tri, z);
      var low := Below(tri, rank, rank(z));
      if tri(z).Some? { SameForUser(c, u, u', z, low, low(Modules)); }
    }
  }
}
