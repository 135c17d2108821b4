/**
 That the cross-CPU calls of kernel/core/smp.c come to an end: from every reachable state only a bounded number of steps is
 possible without new calls, and as long as a call is under way one of them is.
 */
module SmpSettle {
  import opened SmpCall
  import opened SmpAnswer
  import opened Options

  /** The step does something: its CPU is not idle and does not wait for a lock. */
  predicate Enabled(s: State, e: Event) {
    match e
    case Begin(_, _, _, _) => false
    case CallerStep(c) => !s.pc(c).Idle? && !Waits(s, c)
    case Interrupt(c) => s.ipi(c) && s.fl(c).Off?
    case FlushStep(c) => !s.fl(c).Off?
  }

  /** csd_lock and csd_lock_wait */
  predicate Waits(s: State, c: Cpu) {
    || (s.pc(c).LockCsd? && s.lock(PerCpu(c)))
    || (s.pc(c).Finish? && s.pc(c).csd.Stack? && s.lock(s.pc(c).csd))
  }

  /** How many steps a call may still cause, and how many a handler has before it. */
  function CallerWork(pc: Pc): nat {
    match pc
    case Idle => 0
    case LockCsd(_, _, _) => 14
    case Exec(_, _, _, _) => 13
    case AddList(_, _, _, _) => 12
    case SendIpi(_, _, _, _) => 7
    case RunLocal(_, _, _, _) => 2
    case Finish(_, _, _, _, _) => 1
  }

  function FlushWork(fl: Flush, batch: nat, left: nat): nat {
    match fl
    case Off => 0
    case Started => 4
    case Reversing(_, _) => left + 2 + 3 * batch
    case AtEntry(_) => 1 + 3 * batch
    case RunSync(_, _) => 3 + 3 * batch
    case UnlockSync(_, _) => 2 + 3 * batch
    case UnlockAsync(_, _) => 3 + 3 * batch
    case RunAsync(_, _) => 2 + 3 * batch
  }

  function HandlerWork(s: State, c: Cpu): nat {
    4 * |s.h.queue(c)| + (if s.ipi(c) then 5 else 0) + FlushWork(s.fl(c), |s.h.batch(c)|, s.h.left(c))
  }

  function Work(s: State, c: Cpu): nat { CallerWork(s.pc(c)) + HandlerWork(s, c) }

  function Total(s: State, n: nat): nat { if n == 0 then 0 else Total(s, n - 1) + Work(s, n - 1) }

  /** Only CPUs below n are involved. */
  ghost predicate Within(s: State, n: nat) {
    && (forall c: Cpu | c >= n :: Work(s, c) == 0)
    && (forall c: Cpu :: s.pc(c).Idle? || s.pc(c).target < n)
  }

  lemma {:induction false} TotalFalls(s: State, s': State, c: Cpu, t: Cpu, n: nat)
    requires forall x: Cpu | x != c && x != t :: Work(s', x) == Work(s, x)
    ensures c >= n && t >= n ==> Total(s', n) == Total(s, n)
    ensures c < n && t >= n ==> Total(s', n) - Total(s, n) == Work(s', c) - Work(s, c)
    ensures c >= n && t < n ==> Total(s', n) - Total(s, n) == Work(s', t) - Work(s, t)
    ensures c < n && t < n && c != t ==> Total(s', n) - Total(s, n) == Work(s', c) - Work(s, c) + Work(s', t) - Work(s, t)
    ensures c < n && c == t ==> Total(s', n) - Total(s, n) == Work(s', c) - Work(s, c)
  {
    hide Work;
    if n > 0 { TotalFalls(s, s', c, t, n - 1); }
  }

  // ---------------------------------------------------------------------------
  // Every step that does something leaves less to do

  lemma CallerStepWorks(s: State, c: Cpu)
    requires Inv(s) && Answers(s) && Enabled(s, CallerStep(c))
    ensures var s' := StepCaller(s, c); var t := s.pc(c).target;
            && (forall x: Cpu | x != c && x != t :: Work(s', x) == Work(s, x))
            && (if t == c then Work(s', c) < Work(s, c) else Work(s', c) + Work(s', t) < Work(s, c) + Work(s, t))
            && (s'.pc(c).Idle? || s'.pc(c).target == t) && (forall x: Cpu | x != c :: s'.pc(x) == s.pc(x))
  {
    hide Inv;
    hide Unknown;
    hide Set;
    hide Work;
    assert AnswerOk(s, c);
    match s.pc(c)
    case AddList(d, t, _, _) => AddWorks(s, c);
    case SendIpi(d, t, _, _) => SendWorks(s, c);
    case _ => OtherWorks(s, c);
  }

  lemma AddWorks(s: State, c: Cpu)
    requires s.pc(c).AddList? && s.pc(c).target != c
    ensures var s' := StepCaller(s, c); var t := s.pc(c).target;
            && (forall x: Cpu | x != c && x != t :: Work(s', x) == Work(s, x))
            && Work(s', c) + Work(s', t) < Work(s, c) + Work(s, t)
  {
    hide Set;
  }

  lemma SendWorks(s: State, c: Cpu)
    requires s.pc(c).SendIpi? && s.pc(c).target != c
    ensures var s' := StepCaller(s, c); var t := s.pc(c).target;
            && (forall x: Cpu | x != c && x != t :: Work(s', x) == Work(s, x))
            && Work(s', c) + Work(s', t) < Work(s, c) + Work(s, t)
  {
    hide Set;
  }

  lemma OtherWorks(s: State, c: Cpu)
    requires Enabled(s, CallerStep(c)) && !s.pc(c).AddList? && !s.pc(c).SendIpi?
    ensures var s' := StepCaller(s, c); Work(s', c) < Work(s, c) && forall x: Cpu | x != c :: Work(s', x) == Work(s, x)
  {
    hide Set;
  }

  lemma FlushStepWorks(s: State, c: Cpu)
    requires Inv(s) && !s.fl(c).Off?
    ensures var s' := StepFlush(s, c);
            s'.pc == s.pc && Work(s', c) < Work(s, c) && forall x: Cpu | x != c :: Work(s', x) == Work(s, x)
  {
    hide LinksBack;
    hide LinksForward;
    hide CallerOk;
    hide CsdOk;
    hide QueueOk;
    hide AllListed;
    hide SetPlaces;
    hide Set;
    assert BatchOk(s, c);
  }

  lemma StepWorks(s: State, e: Event, n: nat)
    requires Inv(s) && Answers(s) && Within(s, n) && Enabled(s, e)
    ensures Total(Step(s, e), n) < Total(s, n) && Within(Step(s, e), n)
  {
    hide Inv;
    hide Answers;
    hide StepCaller;
    hide StepFlush;
    var s' := Step(s, e);
    match e
    case CallerStep(c) =>
      var t := s.pc(c).target;
      CallerStepWorks(s, c);
      assert c < n && t < n;
      TotalFalls(s, s', c, t, n);
    case FlushStep(c) =>
      FlushStepWorks(s, c);
      assert Work(s, c) > 0 && c < n;
      TotalFalls(s, s', c, c, n);
    case Interrupt(c) =>
      assert Work(s, c) >= 5 && c < n;
      TotalFalls(s, s', c, c, n);
  }

  // ---------------------------------------------------------------------------
  // While there is something to do, somebody can do it

  /** A queue that is not empty. */
  lemma QueueMoves(s: State, t: Cpu) returns (e: Event)
    requires Inv(s) && s.h.queue(t) != []
    ensures Enabled(s, e)
  {
    hide LinksBack;
    hide AllListed;
    assert QueueOk(s, t) && IpiOk(s, t);
    if !s.fl(t).Off? {
      e := FlushStep(t);
    } else if s.ipi(t) {
      e := Interrupt(t);
    } else {
      e := CallerStep(s.h.cause(t));
    }
  }

  /** A csd that somebody waits for. */
  lemma LockedMoves(s: State, d: Csd) returns (e: Event)
    requires Good(s) && s.lock(d) && s.h.place(d) != Prepared
    ensures Enabled(s, e)
  {
    hide LinksBack;
    hide LinksForward;
    hide AllListed;
    hide QueueOk;
    hide IdsOk;
    assert CsdOk(s, d) && Located(s, d);
    match s.h.place(d)
    case Queued(t) => e := QueueMoves(s, t);
    case Batched(t) => assert BatchOk(s, t); e := FlushStep(t);
    case Current(t) => e := FlushStep(t);
  }

  lemma SomebodyMoves(s: State, c: Cpu) returns (e: Event)
    requires Good(s) && PreparedOk(s) && Work(s, c) != 0
    ensures Enabled(s, e)
  {
    hide LinksBack;
    hide LinksForward;
    hide AllListed;
    hide QueueOk;
    hide IdsOk;
    assert CallerOk(s, c) && BatchOk(s, c);
    if !s.pc(c).Idle? {
      if s.pc(c).LockCsd? && s.lock(PerCpu(c)) {
        NotPrepared(s, c, PerCpu(c));
        e := LockedMoves(s, PerCpu(c));
      } else if Waits(s, c) {
        NotPrepared(s, c, s.pc(c).csd);
        e := LockedMoves(s, s.pc(c).csd);
      } else {
        e := CallerStep(c);
      }
    } else if !s.fl(c).Off? {
      e := FlushStep(c);
    } else if s.ipi(c) {
      e := Interrupt(c);
    } else {
      e := QueueMoves(s, c);
    }
  }

  /** A csd that is prepared belongs to a caller that prepares it. */
  ghost predicate PreparedOk(s: State) {
    forall d: Csd | s.h.place(d) == Prepared :: var pc := s.pc(d.cpu); (pc.Exec? || pc.AddList?) && pc.csd == d
  }

  lemma NotPrepared(s: State, c: Cpu, d: Csd)
    requires PreparedOk(s) && d.cpu == c && !s.pc(c).Exec? && !s.pc(c).AddList?
    ensures s.h.place(d) != Prepared
  {
  }

  lemma CallerPrepares(s: State, c: Cpu)
    requires PreparedOk(s) && CallerOk(s, c)
    ensures PreparedOk(StepCaller(s, c))
  {
    hide WaitOk;
  }

  lemma FlushPrepares(s: State, c: Cpu)
    requires PreparedOk(s)
    ensures PreparedOk(StepFlush(s, c))
  {
  }

  lemma {:induction false} RunPrepares(s: State, es: seq<Event>)
    requires Initial(s)
    ensures PreparedOk(Run(s, es))
    decreases |es|
  {
    hide StepCaller;
    hide StepFlush;
    hide Inv;
    if es != [] {
      var s1, e := Run(s, es[..|es| - 1]), es[|es| - 1];
      RunPrepares(s, es[..|es| - 1]);
      RunIsGood(s, es[..|es| - 1]);
      if e.CallerStep? {
        CallerIsOk(s1, e.cpu);
        CallerPrepares(s1, e.cpu);
      }
      if e.FlushStep? { FlushPrepares(s1, e.cpu); }
    }
  }

  lemma CallerIsOk(s: State, c: Cpu)
    requires Inv(s)
    ensures CallerOk(s, c)
  {
  }

  // ---------------------------------------------------------------------------
  // The end

  /** Every event of `more` does something. */
  ghost predicate Effective(s: State, more: seq<Event>) {
    forall k: nat | k < |more| :: Enabled(Run(s, more[..k]), more[k])
  }

  /** All calls have returned, nothing is queued and all that was has run. */
  ghost predicate Settled(s: State) {
    forall c: Cpu :: s.pc(c).Idle? && s.fl(c).Off? && !s.ipi(c) && s.h.queue(c) == [] && s.h.ran(c) == s.h.added(c)
  }

  lemma {:induction false} EffectiveWorks(s: State, more: seq<Event>, n: nat)
    requires Good(s) && Answers(s) && Within(s, n) && Effective(s, more)
    ensures var s' := Run(s, more); Good(s') && Answers(s') && Within(s', n) && Total(s', n) + |more| <= Total(s, n)
    decreases |more|
  {
    hide Good;
    hide Answers;
    hide Within;
    hide Step;
    hide Enabled;
    if more != [] {
      var m, e := more[..|more| - 1], more[|more| - 1];
      forall k: nat | k < |m| ensures Enabled(Run(s, m[..k]), m[k]) { assert m[..k] == more[..k]; }
      EffectiveWorks(s, m, n);
      var s1 := Run(s, m);
      assert Enabled(s1, e);
      GoodInv(s1);
      StepIsGood(s1, e);
      StepAnswers(s1, e);
      StepWorks(s1, e, n);
    }
  }

  lemma GoodInv(s: State)
    requires Good(s)
    ensures Inv(s)
  {
  }

  /** After any run, without new calls there are no more than a bounded number of steps that do something. */
  lemma CallsAreBounded(s: State, es: seq<Event>, n: nat, more: seq<Event>)
    requires Initial(s) && Within(Run(s, es), n) && Effective(Run(s, es), more)
    ensures |more| <= Total(Run(s, es), n)
  {
    hide *;
    RunIsGood(s, es);
    RunAnswers(s, es);
    EffectiveWorks(Run(s, es), more, n);
  }

  /** And when there is no such step any more, all calls have returned and all functions have run. */
  lemma StuckIsSettled(s: State, es: seq<Event>)
    requires Initial(s) && forall e :: !Enabled(Run(s, es), e)
    ensures Settled(Run(s, es))
  {
    hide Run;
    hide Enabled;
    hide Good;
    RunIsGood(s, es);
    RunPrepares(s, es);
    var s' := Run(s, es);
    forall c: Cpu ensures Work(s', c) == 0 {
      if Work(s', c) != 0 {
        var e := SomebodyMoves(s', c);
        assert false;
      }
    }
    forall c: Cpu ensures s'.pc(c).Idle? && s'.fl(c).Off? && !s'.ipi(c) && s'.h.queue(c) == [] && s'.h.ran(c) == s'.h.added(c) {
      IdleIsSettled(s', c);
    }
  }

  lemma IdleIsSettled(s: State, c: Cpu)
    requires Good(s) && Work(s, c) == 0
    ensures s.pc(c).Idle? && s.fl(c).Off? && !s.ipi(c) && s.h.queue(c) == [] && s.h.ran(c) == s.h.added(c)
  {
    hide LinksBack;
    hide LinksForward;
    hide AllListed;
    hide QueueOk;
    hide IdsOk;
    assert BatchOk(s, c) && LogOk(s, c);
  }
}
