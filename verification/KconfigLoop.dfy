/**
 Dependency loop detection of scripts/kconfig/kconfiglib.py on configurations without choices.
 `deps(x)` lists the symbols that depend on x.
 */
module KconfigLoop {
  import opened KconfigExpr
  import opened Options

  // ---------------------------------------------------------------------------
  // Paths and cycles

  /** Each element depends on the one before it. */
  ghost predicate IsPath(deps: Sym -> seq<Sym>, p: seq<Sym>) {
    p != [] && forall i | 0 <= i < |p| - 1 :: p[i + 1] in deps(p[i])
  }

  /** A tuple as it is reported: each element depends on the next, and the first on the last. */
  ghost predicate IsCycle(deps: Sym -> seq<Sym>, c: seq<Sym>) {
    && c != []
    && (forall i | 0 <= i < |c| - 1 :: c[i] in deps(c[i + 1]))
    && c[|c| - 1] in deps(c[0])
  }

  ghost predicate PathTo(deps: Sym -> seq<Sym>, p: seq<Sym>, root: Sym, x: Sym) {
    IsPath(deps, p) && p[0] == root && p[|p| - 1] == x
  }

  ghost predicate Reachable(deps: Sym -> seq<Sym>, roots: seq<Sym>, x: Sym) {
    exists p, k :: 0 <= k < |roots| && PathTo(deps, p, roots[k], x)
  }

  // ---------------------------------------------------------------------------
  // The state of the search

  /** Unvisited, on the call stack, or known to be in no loop. */
  datatype Mark = White | Grey | Black

  /** Finished symbols are closed under dependents, which all finished earlier. */
  ghost predicate BlackOk(deps: Sym -> seq<Sym>, mark: Sym -> Mark, rank: Sym -> nat, clock: nat) {
    forall x | mark(x) == Black :: FinishedOk(deps, mark, rank, clock, x)
  }

  ghost predicate FinishedOk(deps: Sym -> seq<Sym>, mark: Sym -> Mark, rank: Sym -> nat, clock: nat, x: Sym) {
    rank(x) < clock && forall d | d in deps(x) :: mark(d) == Black && rank(d) < rank(x)
  }

  /** The symbols on the call stack are the grey ones, and the stack is a path. */
  ghost predicate GreyOk(deps: Sym -> seq<Sym>, mark: Sym -> Mark, stack: seq<Sym>) {
    && (forall x :: mark(x) == Grey <==> x in stack)
    && (stack != [] ==> IsPath(deps, stack))
  }

  /** What a call returns: no loop, part of a loop that is still being unwound, or the loop it raised. */
  datatype Outcome = NoLoop | Unwinding(loop: seq<Sym>) | Raised(loop: seq<Sym>)

  /** Unwinding: a chain from a symbol on the stack down to the symbol that the call returns from. */
  ghost predicate ChainOk(deps: Sym -> seq<Sym>, loop: seq<Sym>, last: Sym, stack: seq<Sym>) {
    && loop != [] && loop[|loop| - 1] == last && loop[0] in stack
    && forall i | 0 <= i < |loop| - 1 :: loop[i] in deps(loop[i + 1])
  }

  /** _found_dep_loop */
  function FoundDepLoop(loop: seq<Sym>, cur: Sym): Outcome
    requires loop != []
  {
    if cur != loop[0] then Unwinding(loop + [cur]) else Raised(loop)
  }

  /** Nothing finished is ever unfinished again. */
  ghost predicate Grows(mark: Sym -> Mark, mark': Sym -> Mark) {
    forall x :: mark(x) == Black ==> mark'(x) == Black
  }

  class Checker {
    const deps: Sym -> seq<Sym>
    var mark: Sym -> Mark               // _visited
    ghost var rank: Sym -> nat          // the order in which symbols are finished
    ghost var clock: nat
    ghost var white: set<Sym>           // the unvisited symbols

    ghost predicate Valid(stack: seq<Sym>)
      reads this
    {
      && BlackOk(deps, mark, rank, clock) && GreyOk(deps, mark, stack)
      && (forall x :: x in white <==> mark(x) == White && Known(x))
      && (forall x, d :: Known(x) && d in deps(x) ==> Known(d))
    }

    ghost const nodes: set<Sym>

    ghost predicate Known(x: Sym)
    {
      x in nodes
    }

    constructor (deps: Sym -> seq<Sym>, ghost nodes: set<Sym>)
      requires forall x, d :: x in nodes && d in deps(x) ==> d in nodes
      ensures Valid([]) && this.deps == deps && this.nodes == nodes
    {
      this.deps, this.nodes := deps, nodes;
      mark, rank, clock, white := (_ => White), (_ => 0), 0, nodes;
    }

    /** Entering an unvisited symbol. */
    method Enter(x: Sym, ghost stack: seq<Sym>)
      requires Valid(stack) && Known(x) && mark(x) == White
      requires stack != [] ==> x in deps(stack[|stack| - 1])
      modifies this`mark, this`white
      ensures Valid(stack + [x]) && Grows(old(mark), mark) && white < old(white)
    {
      assert IsPath(deps, stack + [x]);
      mark := Put(mark, x, Grey);
      white := white - {x};
    }

    /** Leaving a symbol all of whose dependents are finished. */
    method Leave(x: Sym, ghost stack: seq<Sym>)
      requires Valid(stack + [x]) && x !in stack && forall d | d in deps(x) :: mark(d) == Black
      modifies this`mark, this`rank, this`clock
      ensures Valid(stack) && Grows(old(mark), mark) && mark(x) == Black
    {
      assert x in stack + [x];
      PathPrefix(deps, stack, x);
      mark := Put(mark, x, Black);
      rank := PutRank(rank, x, clock);
      clock := clock + 1;
      forall y | mark(y) == Black ensures FinishedOk(deps, mark, rank, clock, y) {
        if y != x { assert FinishedOk(deps, old(mark), old(rank), old(clock), y); }
      }
    }

    lemma StackFacts(x: Sym, stack: seq<Sym>)
      requires Valid(stack)
      ensures mark(x) == Grey <==> x in stack
      ensures Known(x) ==> forall d | d in deps(x) :: Known(d)
      ensures stack != [] ==> IsPath(deps, stack)
    {
    }

    /** _check_dep_loop_sym */
    method CheckSym(x: Sym, ghost stack: seq<Sym>) returns (r: Outcome, ghost path: seq<Sym>)
      requires Valid(stack) && Known(x) && (stack != [] ==> x in deps(stack[|stack| - 1]))
      modifies this
      ensures white <= old(white)
      ensures r.NoLoop? ==> Valid(stack) && mark(x) == Black && Grows(old(mark), mark)
      ensures r.Unwinding? ==> ChainOk(deps, r.loop, x, stack)
      ensures r.Raised? ==> IsCycle(deps, r.loop) && PathTo(deps, path, (stack + [x])[0], r.loop[0])
      decreases white
    {
      hide Valid;
      hide IsPath;
      hide IsCycle;
      hide ChainOk;
      hide PathTo;
      path := [];
      StackFacts(x, stack);
      if mark(x) == White {
        Enter(x, stack);
        var k := 0;
        ghost var stack' := stack + [x];
        StackFacts(x, stack');
        while k < |deps(x)|
          invariant 0 <= k <= |deps(x)| && Valid(stack') && white < old(white) && Grows(old(mark), mark)
          invariant forall j | 0 <= j < k :: mark(deps(x)[j]) == Black
        {
          r, path := CheckSym(deps(x)[k], stack');
          if r.Unwinding? {
            Unwind(deps, r.loop, deps(x)[k], stack, x);
            r := FoundDepLoop(r.loop, x);
            path := stack';
            return;
          }
          if r.Raised? {
            assert (stack' + [deps(x)[k]])[0] == stack'[0];
            return;
          }
          k := k + 1;
        }
        Leave(x, stack);
        return NoLoop, [];
      }
      if mark(x) == Black {
        return NoLoop, [];
      }
      OneChain(deps, x, stack);
      return Unwinding([x]), [];
    }

    /** The scan over all defined symbols: it raises exactly when one of them leads to a loop. */
    method CheckAll(syms: seq<Sym>) returns (r: Option<seq<Sym>>)
      requires Valid([]) && forall k | 0 <= k < |syms| :: Known(syms[k])
      modifies this
      ensures r.Some? ==> IsCycle(deps, r.value) && Reachable(deps, syms, r.value[0])
      ensures r.None? ==> (forall c | IsCycle(deps, c) :: !Reachable(deps, syms, c[0]))
      ensures r.None? ==> Valid([]) && forall x | Reachable(deps, syms, x) :: mark(x) == Black
    {
      hide Valid;
      hide IsCycle;
      hide PathTo;
      var k := 0;
      while k < |syms|
        invariant 0 <= k <= |syms| && Valid([])
        invariant forall j | 0 <= j < k :: mark(syms[j]) == Black
      {
        var o, path := CheckSym(syms[k], []);
        if o.Raised? {
          assert ([] + [syms[k]])[0] == syms[k];
          return Some(o.loop);
        }
        NothingToUnwind(deps, syms[k]);
        k := k + 1;
      }
      AllFinished(syms);
      return None;
    }

    lemma AllFinished(syms: seq<Sym>)
      requires Valid([]) && forall k | 0 <= k < |syms| :: mark(syms[k]) == Black
      ensures forall x | Reachable(deps, syms, x) :: mark(x) == Black
      ensures forall c | IsCycle(deps, c) :: !Reachable(deps, syms, c[0])
    {
      forall x | Reachable(deps, syms, x) ensures mark(x) == Black {
        var p, k :| 0 <= k < |syms| && PathTo(deps, p, syms[k], x);
        PathIsBlack(deps, mark, rank, clock, p, |p| - 1);
      }
      forall c | IsCycle(deps, c) ensures !Reachable(deps, syms, c[0]) {
        if Reachable(deps, syms, c[0]) { NoBlackCycle(deps, mark, rank, clock, c); }
      }
    }
  }

  lemma OneChain(deps: Sym -> seq<Sym>, x: Sym, stack: seq<Sym>)
    requires x in stack
    ensures ChainOk(deps, [x], x, stack)
  {
  }

  /** A search that starts with an empty stack cannot end in the middle of a loop. */
  lemma NothingToUnwind(deps: Sym -> seq<Sym>, x: Sym)
    ensures forall loop :: !ChainOk(deps, loop, x, [])
  {
  }

  /** One step of unwinding: the chain gets longer, or it is the loop. */
  lemma Unwind(deps: Sym -> seq<Sym>, loop: seq<Sym>, d: Sym, stack: seq<Sym>, x: Sym)
    requires ChainOk(deps, loop, d, stack + [x]) && d in deps(x) && IsPath(deps, stack + [x])
    ensures loop != []
    ensures var r := FoundDepLoop(loop, x);
            if r.Unwinding? then ChainOk(deps, r.loop, x, stack)
            else r.Raised? && IsCycle(deps, r.loop) && PathTo(deps, stack + [x], (stack + [x])[0], r.loop[0])
  {
  }

  lemma {:induction false} PathIsBlack(deps: Sym -> seq<Sym>, mark: Sym -> Mark, rank: Sym -> nat, clock: nat, p: seq<Sym>, i: nat)
    requires BlackOk(deps, mark, rank, clock) && IsPath(deps, p) && i < |p| && mark(p[0]) == Black
    ensures mark(p[i]) == Black
  {
    if i > 0 {
      PathIsBlack(deps, mark, rank, clock, p, i - 1);
      assert FinishedOk(deps, mark, rank, clock, p[i - 1]) && p[i - 1 + 1] in deps(p[i - 1]);
    }
  }

  /** Along a cycle the finishing order would have to fall for ever. */
  lemma NoBlackCycle(deps: Sym -> seq<Sym>, mark: Sym -> Mark, rank: Sym -> nat, clock: nat, c: seq<Sym>)
    requires BlackOk(deps, mark, rank, clock) && IsCycle(deps, c)
    ensures mark(c[0]) != Black
  {
    if mark(c[0]) == Black {
      assert FinishedOk(deps, mark, rank, clock, c[0]);
      CycleFalls(deps, mark, rank, clock, c, 0);
    }
  }

  lemma {:induction false} CycleFalls(deps: Sym -> seq<Sym>, mark: Sym -> Mark, rank: Sym -> nat, clock: nat, c: seq<Sym>, i: nat)
    requires BlackOk(deps, mark, rank, clock) && IsCycle(deps, c) && i < |c| && mark(c[0]) == Black
    ensures mark(c[i]) == Black && rank(c[i]) < rank(c[0])
    decreases |c| - i
  {
    if i == |c| - 1 {
      assert FinishedOk(deps, mark, rank, clock, c[0]);
    } else {
      CycleFalls(deps, mark, rank, clock, c, i + 1);
      assert FinishedOk(deps, mark, rank, clock, c[i + 1]);
    }
  }

  function Put(mark: Sym -> Mark, x: Sym, m: Mark): Sym -> Mark { (y: Sym) => if y == x then m else mark(y) }

  function PutRank(rank: Sym -> nat, x: Sym, r: nat): Sym -> nat { (y: Sym) => if y == x then r else rank(y) }

  lemma PathPrefix(deps: Sym -> seq<Sym>, stack: seq<Sym>, x: Sym)
    requires IsPath(deps, stack + [x])
    ensures stack != [] ==> IsPath(deps, stack)
  {
    forall i | 0 <= i < |stack| - 1 ensures stack[i + 1] in deps(stack[i]) {
      assert (stack + [x])[i + 1] in deps((stack + [x])[i]);
    }
  }

  // ---------------------------------------------------------------------------
  // What evaluation may read
  //
  // Evaluating x may read every y that x depends on.  A tristate symbol may also read MODULES, to know whether
  // modules are enabled; that is not a recorded dependency.

  ghost predicate MayRead(deps: Sym -> seq<Sym>, tristate: Sym -> bool, modules: Sym, x: Sym, y: Sym) {
    x in deps(y) || (tristate(x) && y == modules)
  }

  /** A measure that every read lowers, among the symbols of interest. */
  ghost predicate Founded(deps: Sym -> seq<Sym>, tristate: Sym -> bool, modules: Sym, nodes: set<Sym>, m: Sym -> nat) {
    forall x, y | x in nodes && y in nodes && MayRead(deps, tristate, modules, x, y) :: m(y) < m(x)
  }

  /** MODULES depends on x, in one or more steps or by being x. */
  ghost predicate ModulesNeeds(deps: Sym -> seq<Sym>, modules: Sym, x: Sym) {
    exists p :: PathTo(deps, p, x, modules)
  }

  /** No tristate symbol is among what MODULES needs. */
  ghost predicate ModulesApart(deps: Sym -> seq<Sym>, tristate: Sym -> bool, modules: Sym, nodes: set<Sym>) {
    forall x | x in nodes && tristate(x) :: !ModulesNeeds(deps, modules, x)
  }

  lemma NeedsGrows(deps: Sym -> seq<Sym>, modules: Sym, x: Sym, y: Sym)
    requires ModulesNeeds(deps, modules, x) && x in deps(y)
    ensures ModulesNeeds(deps, modules, y)
  {
    var p :| PathTo(deps, p, x, modules);
    var p' := [y] + p;
    forall i | 0 <= i < |p'| - 1 ensures p'[i + 1] in deps(p'[i]) {
      if i > 0 { assert p[i - 1 + 1] in deps(p[i - 1]); }
    }
    assert PathTo(deps, p', y, modules);
  }

  ghost function Measure(deps: Sym -> seq<Sym>, modules: Sym, rank: Sym -> nat, clock: nat): Sym -> nat {
    (x: Sym) => (if ModulesNeeds(deps, modules, x) then 0 else clock) + if rank(x) < clock then clock - rank(x) else 0
  }

  /** After a scan without a loop: if MODULES needs no tristate symbol, everything that may be read is lower. */
  lemma ScanFounds(deps: Sym -> seq<Sym>, mark: Sym -> Mark, rank: Sym -> nat, clock: nat,
                   tristate: Sym -> bool, modules: Sym, nodes: set<Sym>)
    requires BlackOk(deps, mark, rank, clock) && (forall x | x in nodes :: mark(x) == Black)
    requires ModulesApart(deps, tristate, modules, nodes)
    ensures Founded(deps, tristate, modules, nodes, Measure(deps, modules, rank, clock))
  {
    var m := Measure(deps, modules, rank, clock);
    assert PathTo(deps, [modules], modules, modules);
    forall x, y | x in nodes && y in nodes && MayRead(deps, tristate, modules, x, y) ensures m(y) < m(x) {
      assert FinishedOk(deps, mark, rank, clock, x) && FinishedOk(deps, mark, rank, clock, y);
      if x in deps(y) && ModulesNeeds(deps, modules, x) { NeedsGrows(deps, modules, x, y); }
    }
  }

  /** Conversely, if MODULES needs a tristate symbol no measure exists: the two read each other. */
  lemma {:induction false} NeedsFalls(deps: Sym -> seq<Sym>, tristate: Sym -> bool, modules: Sym, nodes: set<Sym>, m: Sym -> nat,
                                      p: seq<Sym>, i: nat)
    requires Founded(deps, tristate, modules, nodes, m) && IsPath(deps, p) && i < |p| && p[0] in nodes
    requires forall x, d :: x in nodes && d in deps(x) ==> d in nodes
    ensures p[i] in nodes && m(p[0]) <= m(p[i])
  {
    if i > 0 {
      NeedsFalls(deps, tristate, modules, nodes, m, p, i - 1);
      assert p[i - 1 + 1] in deps(p[i - 1]);
      assert MayRead(deps, tristate, modules, p[i], p[i - 1]);
    }
  }

  /** For the reads that are possible by the recorded dependencies, the condition is exact. */
  lemma FoundedOnlyIfApart(deps: Sym -> seq<Sym>, tristate: Sym -> bool, modules: Sym, nodes: set<Sym>, m: Sym -> nat)
    requires Founded(deps, tristate, modules, nodes, m) && modules in nodes
    requires forall x, d :: x in nodes && d in deps(x) ==> d in nodes
    ensures ModulesApart(deps, tristate, modules, nodes)
    ensures forall c | IsCycle(deps, c) :: c[0] !in nodes
  {
    forall x | x in nodes && tristate(x) ensures !ModulesNeeds(deps, modules, x) {
      if ModulesNeeds(deps, modules, x) {
        var p :| PathTo(deps, p, x, modules);
        NeedsFalls(deps, tristate, modules, nodes, m, p, |p| - 1);
        assert MayRead(deps, tristate, modules, x, modules);
      }
    }
    forall c | IsCycle(deps, c) ensures c[0] !in nodes {
      if c[0] in nodes { CycleClimbs(deps, tristate, modules, nodes, m, c, 0); }
    }
  }

  lemma {:induction false} CycleClimbs(deps: Sym -> seq<Sym>, tristate: Sym -> bool, modules: Sym, nodes: set<Sym>, m: Sym -> nat,
                                       c: seq<Sym>, i: nat)
    requires Founded(deps, tristate, modules, nodes, m) && IsCycle(deps, c) && i < |c| && c[0] in nodes
    requires forall x, d :: x in nodes && d in deps(x) ==> d in nodes
    ensures c[i] in nodes && m(c[0]) < m(c[i])
    decreases |c| - i
  {
    if i == |c| - 1 {
      assert MayRead(deps, tristate, modules, c[i], c[0]);
    } else {
      CycleClimbs(deps, tristate, modules, nodes, m, c, i + 1);
      assert MayRead(deps, tristate, modules, c[i], c[i + 1]);
    }
  }
}
