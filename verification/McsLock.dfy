/**
 The MCS queue lock of kernel/core/locking/mcs_spinlock.h as a state machine.

 Every thread owns one queue node, so a node pointer is named by its owner.  Each atomic
 access to shared memory (a store, a load, the xchg and the cmpxchg) is one step, and a run
 is an arbitrary schedule: a sequence of thread names, each of which takes its next step.
 A thread that finishes an unlock is idle again and may re-use its node for the next lock.
 */
module McsLock {
  import opened Options

  type Tid = nat

  /** `struct mcs_spinlock`: the successor pointer and the flag its owner spins on. */
  datatype Node = Node(next: Option<Tid>, locked: bool)

  /** The program counter: the next shared access a thread is about to make. */
  datatype Pc =
    | Idle                    // not inside lock or unlock; next: clear node.locked
    | ClearNext               // next: clear node.next
    | Swap                    // next: prev := xchg(lock, node)
    | Linking(prev: Tid)      // next: prev.next := node
    | Spinning                // next: read node.locked, leave when it is set
    | Critical                // holds the lock; next: read node.next to unlock
    | CasTail                 // saw no successor; next: cmpxchg(lock, node, NULL)
    | WaitNext                // the cmpxchg failed; next: read node.next, leave when set
    | Handoff(succ: Tid)      // next: succ.locked := 1

  /** Shared memory and the program counters of an unbounded set of threads. */
  datatype State = State(tail: Option<Tid>, node: Tid -> Node, pc: Tid -> Pc)

  /** The lock before its first use: tail NULL, every thread idle, node memory arbitrary. */
  ghost predicate Initial(s: State) {
    s.tail.None? && forall t :: s.pc(t).Idle?
  }

  /** Such a state, whatever is in the nodes. */
  function Unused(node: Tid -> Node): (s: State)
    ensures Initial(s) && s.node == node
  {
    State(None, node, _ => Idle)
  }

  function Put<V>(f: Tid -> V, t: Tid, v: V): Tid -> V { (x: Tid) => if x == t then v else f(x) }

  function SetPc(s: State, t: Tid, pc: Pc): State { s.(pc := Put(s.pc, t, pc)) }

  function SetNode(s: State, t: Tid, node: Node): State { s.(node := Put(s.node, t, node)) }

  /** One atomic step of thread t. */
  function Step(s: State, t: Tid): State {
    match s.pc(t)
    case Idle => SetPc(SetNode(s, t, s.node(t).(locked := false)), t, ClearNext)
    case ClearNext => SetPc(SetNode(s, t, s.node(t).(next := None)), t, Swap)
    case Swap =>
      SetPc(s.(tail := Some(t)), t, if s.tail.None? then Critical else Linking(s.tail.value))
    case Linking(p) => SetPc(SetNode(s, p, s.node(p).(next := Some(t))), t, Spinning)
    case Spinning => if s.node(t).locked then SetPc(s, t, Critical) else s
    case Critical =>
      SetPc(s, t, if s.node(t).next.None? then CasTail else Handoff(s.node(t).next.value))
    case CasTail =>
      if s.tail == Some(t) then SetPc(s.(tail := None), t, Idle) else SetPc(s, t, WaitNext)
    case WaitNext =>
      if s.node(t).next.None? then s else SetPc(s, t, Handoff(s.node(t).next.value))
    case Handoff(n) => SetPc(SetNode(s, n, s.node(n).(locked := true)), t, Idle)
  }

  /** The state after a whole schedule. */
  ghost function Run(s: State, sched: seq<Tid>): (s': State)
    decreases |sched|
  {
    if sched == [] then s else Step(Run(s, sched[..|sched| - 1]), sched[|sched| - 1])
  }

  // ---------------------------------------------------------------------------
  // What happened during a run, read off the schedule

  /** The thread performs its xchg on the tail in this step. */
  predicate Arrives(s: State, t: Tid) { s.pc(t).Swap? }

  /** The thread enters the critical section in this step. */
  predicate Acquires(s: State, t: Tid) {
    !Holds(s.pc(t)) && Holds(Step(s, t).pc(t))
  }

  /** The thread gives up the lock in this step (a successful cmpxchg, or the hand-off store). */
  predicate Releases(s: State, t: Tid) {
    Holds(s.pc(t)) && !Holds(Step(s, t).pc(t))
  }

  /** A thread holds the lock from the moment lock() returns until unlock() passes it on. */
  predicate Holds(pc: Pc) { pc.Critical? || pc.CasTail? || pc.WaitNext? || pc.Handoff? }

  /** Waiting: the xchg is done but lock() has not returned. */
  predicate Waits(pc: Pc) { pc.Linking? || pc.Spinning? }

  datatype Event = Arrive | Acquire | Release

  predicate Happens(e: Event, s: State, t: Tid) {
    match e
    case Arrive => Arrives(s, t)
    case Acquire => Acquires(s, t)
    case Release => Releases(s, t)
  }

  /** The threads that performed event e during the run, in order. */
  ghost function History(e: Event, s: State, sched: seq<Tid>): seq<Tid>
    decreases |sched|
  {
    if sched == [] then []
    else
      var before, t := sched[..|sched| - 1], sched[|sched| - 1];
      History(e, s, before) + if Happens(e, Run(s, before), t) then [t] else []
  }

  // ---------------------------------------------------------------------------
  // The queue invariant

  /** The queue has no thread twice. */
  ghost predicate Distinct(q: seq<Tid>) { forall i, j | 0 <= i < j < |q| :: q[i] != q[j] }

  /** Position i holds a waiting thread with a clear flag, linked in front of it once it spins. */
  ghost predicate WaiterAt(s: State, q: seq<Tid>, i: int) {
    0 < i < |q| ==>
      && (s.pc(q[i]) == Linking(q[i - 1]) || s.pc(q[i]) == Spinning)
      && !s.node(q[i]).locked
      && s.node(q[i - 1]).next == (if s.pc(q[i]).Spinning? then Some(q[i]) else None)
  }

  ghost predicate WaitersOk(s: State, q: seq<Tid>) {
    forall i :: WaiterAt(s, q, i)
  }

  /** The front owns the lock, or has been handed it and has not noticed yet. */
  ghost predicate FrontOk(s: State, q: seq<Tid>) {
    q != [] ==>
      && (Holds(s.pc(q[0])) || (s.pc(q[0]).Spinning? && s.node(q[0]).locked))
      && (s.pc(q[0]).WaitNext? ==> |q| > 1)
      && (s.pc(q[0]).Handoff? ==> |q| > 1 && s.pc(q[0]).succ == q[1] && s.pc(q[1]) == Spinning)
  }

  ghost predicate Inv(s: State, q: seq<Tid>) {
    && Distinct(q)
    && s.tail == (if q == [] then None else Some(q[|q| - 1]))
    && (forall t :: t in q <==> Holds(s.pc(t)) || Waits(s.pc(t)))
    && WaitersOk(s, q)
    && FrontOk(s, q)
    // the last thread of the queue, and a thread about to swap, have no successor
    && (q != [] ==> s.node(q[|q| - 1]).next.None?)
    && (forall t :: s.pc(t).Swap? ==> s.node(t) == Node(None, false))
    && (forall t :: s.pc(t).ClearNext? ==> !s.node(t).locked)
  }

  /** How the queue of arrived-but-not-released threads changes in one step. */
  ghost function QueueStep(s: State, q: seq<Tid>, t: Tid): seq<Tid> {
    if Arrives(s, t) then q + [t]
    else if Releases(s, t) && q != [] then q[1..]
    else q
  }

  lemma HolderIsFront(s: State, q: seq<Tid>, t: Tid)
    requires Inv(s, q) && Holds(s.pc(t))
    ensures q != [] && q[0] == t
  {
    var i :| 0 <= i < |q| && q[i] == t;
    assert WaiterAt(s, q, i);
  }

  lemma StepArrive(s: State, q: seq<Tid>, t: Tid)
    requires Inv(s, q) && Arrives(s, t)
    ensures Inv(Step(s, t), q + [t])
  {
    var s', q' := Step(s, t), q + [t];
    assert t !in q;
    forall i ensures WaiterAt(s', q', i) {
      assert WaiterAt(s, q, i);
    }
  }

  lemma StepLink(s: State, q: seq<Tid>, t: Tid)
    requires Inv(s, q) && s.pc(t).Linking?
    ensures Inv(Step(s, t), q)
  {
    var s' := Step(s, t);
    var k :| 0 <= k < |q| && q[k] == t;
    assert WaiterAt(s, q, k);
    forall i ensures WaiterAt(s', q, i) {
      assert WaiterAt(s, q, i);
    }
  }

  lemma StepSpin(s: State, q: seq<Tid>, t: Tid)
    requires Inv(s, q) && s.pc(t).Spinning?
    ensures Inv(Step(s, t), q)
    ensures s.node(t).locked ==> q != [] && q[0] == t
  {
    var s' := Step(s, t);
    var k :| 0 <= k < |q| && q[k] == t;
    assert WaiterAt(s, q, k);
    forall i ensures WaiterAt(s', q, i) {
      assert WaiterAt(s, q, i);
    }
  }

  lemma StepUnlockRead(s: State, q: seq<Tid>, t: Tid)
    requires Inv(s, q) && (s.pc(t).Critical? || s.pc(t).WaitNext?)
    ensures Inv(Step(s, t), q)
  {
    HolderIsFront(s, q, t);
    var s' := Step(s, t);
    assert WaiterAt(s, q, 1);
    forall i ensures WaiterAt(s', q, i) {
      assert WaiterAt(s, q, i);
    }
  }

  lemma StepCas(s: State, q: seq<Tid>, t: Tid)
    requires Inv(s, q) && s.pc(t).CasTail?
    ensures Inv(Step(s, t), QueueStep(s, q, t))
    // the cmpxchg fails exactly when somebody has swapped in behind
    ensures Step(s, t).pc(t).WaitNext? <==> |q| > 1
  {
    HolderIsFront(s, q, t);
    var s' := Step(s, t);
    if |q| == 1 {
      assert q == [t] && q[1..] == [];
    }
    forall i ensures WaiterAt(s', QueueStep(s, q, t), i) {
      assert WaiterAt(s, q, i);
    }
  }

  lemma HandoffWaiters(s: State, q: seq<Tid>, t: Tid)
    requires WaitersOk(s, q) && Distinct(q) && q != [] && q[0] == t && s.pc(t).Handoff?
    requires |q| > 1 ==> s.pc(t).succ == q[1]
    ensures WaitersOk(Step(s, t), q[1..])
  {
    var s', q' := Step(s, t), q[1..];
    forall i ensures WaiterAt(s', q', i) {
      assert WaiterAt(s, q, i + 1);
      assert 0 < i < |q'| ==> q'[i] == q[i + 1] && q'[i - 1] == q[i] && q[i + 1] != q[0] && q[i] != q[0] && q[i + 1] != q[1];
    }
  }

  lemma StepHandoff(s: State, q: seq<Tid>, t: Tid)
    requires Inv(s, q) && s.pc(t).Handoff?
    ensures Inv(Step(s, t), q[1..])
  {
    hide WaitersOk;
    HolderIsFront(s, q, t);
    HandoffWaiters(s, q, t);
    var q' := q[1..];
    assert q == [t] + q';
    assert t !in q';
    assert forall u :: u in q <==> u == t || u in q';
  }

  /** Every step of every thread keeps the invariant, with the queue moving as QueueStep says. */
  lemma StepKeepsInv(s: State, q: seq<Tid>, t: Tid)
    requires Inv(s, q)
    ensures Inv(Step(s, t), QueueStep(s, q, t))
  {
    match s.pc(t)
      case Idle => StepLocal(s, q, t);
      case ClearNext => StepLocal(s, q, t);
      case Swap => StepArrive(s, q, t);
      case Linking(_) => StepLink(s, q, t);
      case Spinning => StepSpin(s, q, t);
      case Critical => StepUnlockRead(s, q, t);
      case CasTail => StepCas(s, q, t);
      case WaitNext => StepUnlockRead(s, q, t);
      case Handoff(_) => HolderIsFront(s, q, t); StepHandoff(s, q, t);
  }

  /** Preparing one's own node disturbs nobody. */
  lemma StepLocal(s: State, q: seq<Tid>, t: Tid)
    requires Inv(s, q) && (s.pc(t).Idle? || s.pc(t).ClearNext?)
    ensures Inv(Step(s, t), q)
  {
    var s' := Step(s, t);
    assert t !in q;
    forall i ensures WaiterAt(s', q, i) {
      assert WaiterAt(s, q, i);
    }
  }

  // ---------------------------------------------------------------------------
  // Whole runs

  /** The arrivals that have not released yet, in arrival order. */
  ghost function Queue(s: State, sched: seq<Tid>): seq<Tid> {
    var arrivals, releases := History(Arrive, s, sched), History(Release, s, sched);
    if |releases| <= |arrivals| then arrivals[|releases|..] else []
  }

  /** How the three histories relate after every run. */
  ghost predicate HistoriesAgree(s: State, sched: seq<Tid>) {
    var s' := Run(s, sched);
    var q := Queue(s, sched);
    var arrivals := History(Arrive, s, sched);
    var acquired := History(Acquire, s, sched);
    var released := History(Release, s, sched);
    && released <= arrivals
    && acquired <= arrivals
    && |acquired| == |released| + (if q != [] && Holds(s'.pc(q[0])) then 1 else 0)
  }

  /** In one step a queue-front acquires, a queue-front releases, or neither happens. */
  lemma StepEvents(s: State, q: seq<Tid>, t: Tid)
    requires Inv(s, q)
    ensures Acquires(s, t) && !Arrives(s, t) ==> q != [] && q[0] == t
    ensures Acquires(s, t) && Arrives(s, t) ==> q == []
    ensures Releases(s, t) ==> q != [] && q[0] == t && !Arrives(s, t) && !Acquires(s, t)
    ensures var q' := QueueStep(s, q, t);
            (q' != [] && Holds(Step(s, t).pc(q'[0]))) <==>
            (if Releases(s, t) then false
             else Acquires(s, t) || (q != [] && Holds(s.pc(q[0]))))
  {
    StepKeepsInv(s, q, t);
    if Holds(s.pc(t)) {
      HolderIsFront(s, q, t);
      assert WaiterAt(s, q, 1);
    } else if s.pc(t).Spinning? {
      StepSpin(s, q, t);
    } else if s.pc(t).Idle? || s.pc(t).ClearNext? || s.pc(t).Swap? {
      assert t !in q;
    }
  }

  function Append(h: seq<Tid>, happens: bool, t: Tid): seq<Tid> { h + if happens then [t] else [] }

  /** The bookkeeping behind RunInvariant: one step of the three histories, as plain sequences. */
  lemma ExtendHistories(arrived: seq<Tid>, acquired: seq<Tid>, released: seq<Tid>, t: Tid,
                        arrives: bool, acquires: bool, releases: bool)
    requires acquired <= arrived && released <= arrived && |released| <= |acquired| <= |released| + 1
    requires acquires ==> |acquired| == |released|
    requires acquires && !arrives ==> |released| < |arrived| && arrived[|released|] == t
    requires acquires && arrives ==> |released| == |arrived|
    requires releases ==> |released| < |arrived| && arrived[|released|] == t && !arrives && !acquires
    ensures var arrived', acquired', released' :=
              Append(arrived, arrives, t), Append(acquired, acquires, t), Append(released, releases, t);
            && acquired' <= arrived' && released' <= arrived'
            && arrived'[|released'|..] ==
               (var q := arrived[|released|..];
                if arrives then q + [t] else if releases && q != [] then q[1..] else q)
  {
  }

  /** Whatever the schedule, the invariant holds of the queue its own history describes. */
  lemma {:induction false} RunInvariant(s: State, sched: seq<Tid>)
    requires Initial(s)
    ensures Inv(Run(s, sched), Queue(s, sched))
    ensures HistoriesAgree(s, sched)
    decreases |sched|
  {
    if sched == [] {
      assert Queue(s, sched) == [];
    } else {
      var before, t := sched[..|sched| - 1], sched[|sched| - 1];
      RunInvariant(s, before);
      var m, q := Run(s, before), Queue(s, before);
      StepKeepsInv(m, q, t);
      StepEvents(m, q, t);
      ExtendHistories(History(Arrive, s, before), History(Acquire, s, before), History(Release, s, before),
                      t, Arrives(m, t), Acquires(m, t), Releases(m, t));
      HistorySplit(Arrive, s, sched);
      HistorySplit(Acquire, s, sched);
      HistorySplit(Release, s, sched);
    }
  }

  lemma HistorySplit(e: Event, s: State, sched: seq<Tid>)
    requires sched != []
    ensures var before, t := sched[..|sched| - 1], sched[|sched| - 1];
            History(e, s, sched) == Append(History(e, s, before), Happens(e, Run(s, before), t), t)
  {
  }

  /** Mutual exclusion: no two threads hold the lock, for any number of threads and any schedule. */
  lemma MutualExclusion(s: State, sched: seq<Tid>, t: Tid, u: Tid)
    requires Initial(s)
    requires Holds(Run(s, sched).pc(t)) && Holds(Run(s, sched).pc(u))
    ensures t == u
  {
    RunInvariant(s, sched);
    HolderIsFront(Run(s, sched), Queue(s, sched), t);
    HolderIsFront(Run(s, sched), Queue(s, sched), u);
  }

  /** Fairness: the lock is granted, and given back, in exactly the order of the xchg on the tail. */
  lemma GrantsInArrivalOrder(s: State, sched: seq<Tid>)
    requires Initial(s)
    ensures History(Acquire, s, sched) <= History(Arrive, s, sched)
    ensures History(Release, s, sched) <= History(Acquire, s, sched)
    ensures |History(Acquire, s, sched)| <= |History(Release, s, sched)| + 1
  {
    RunInvariant(s, sched);
  }

  /** The tail is NULL exactly when nobody holds the lock or waits for it. */
  lemma TailNullIffFree(s: State, sched: seq<Tid>)
    requires Initial(s)
    ensures var s' := Run(s, sched);
            s'.tail.None? <==> forall t :: !Holds(s'.pc(t)) && !Waits(s'.pc(t))
  {
    RunInvariant(s, sched);
    var s', q := Run(s, sched), Queue(s, sched);
    if q != [] {
      assert q[0] in q;
    }
  }

  /**
   An unlocker whose cmpxchg failed always has a successor: a thread that has swapped itself in
   right behind it and either is about to store its address or has already done so.
   */
  lemma FailedCasHasSuccessor(s: State, sched: seq<Tid>, t: Tid) returns (u: Tid)
    requires Initial(s)
    requires Run(s, sched).pc(t).WaitNext?
    ensures u != t
    ensures var s' := Run(s, sched);
            || (s'.pc(u) == Linking(t) && s'.node(t).next.None?)
            || (s'.pc(u) == Spinning && s'.node(t).next == Some(u))
  {
    RunInvariant(s, sched);
    var s', q := Run(s, sched), Queue(s, sched);
    HolderIsFront(s', q, t);
    assert WaiterAt(s', q, 1);
    u := q[1];
  }

  /** The thread's next step is not one more turn of a spin loop. */
  predicate Moves(s: State, t: Tid) { Step(s, t).pc(t) != s.pc(t) }

  /** Somewhere between the first store of lock() and the last store of unlock(). */
  predicate InFlight(pc: Pc) { !pc.Idle? }

  /** A holder or waiter. */
  predicate Queued(pc: Pc) { Holds(pc) || Waits(pc) }

  lemma QueueMoves(s: State, q: seq<Tid>) returns (u: Tid)
    requires Inv(s, q) && q != []
    ensures Queued(s.pc(u)) && Moves(s, u)
  {
    assert WaiterAt(s, q, 1);
    u := if s.pc(q[0]).WaitNext? && s.node(q[0]).next.None? then q[1] else q[0];
    assert u in q;
  }

  /** The lock never gets stuck: as long as anyone holds it or waits for it, some such thread can move. */
  lemma SomebodyCanMove(s: State, sched: seq<Tid>, t: Tid) returns (u: Tid)
    requires Initial(s)
    requires Queued(Run(s, sched).pc(t))
    ensures Queued(Run(s, sched).pc(u)) && Moves(Run(s, sched), u)
  {
    RunInvariant(s, sched);
    assert t in Queue(s, sched);
    u := QueueMoves(Run(s, sched), Queue(s, sched));
  }

  /** The steps left until a thread is idle again, spinning aside. */
  function StepsLeft(pc: Pc): nat {
    match pc
    case ClearNext => 8 case Swap => 7 case Linking(_) => 6 case Spinning => 5
    case Critical => 4 case CasTail => 3 case WaitNext => 2 case Handoff(_) => 1 case Idle => 0
  }

  ghost function Work(s: State, n: nat): nat {
    if n == 0 then 0 else Work(s, n - 1) + StepsLeft(s.pc(n - 1))
  }

  lemma {:induction false} WorkDrops(s: State, t: Tid, n: nat)
    requires InFlight(s.pc(t)) && Moves(s, t)
    ensures t < n ==> Work(Step(s, t), n) < Work(s, n)
    ensures t >= n ==> Work(Step(s, t), n) == Work(s, n)
  {
    if n > 0 {
      WorkDrops(s, t, n - 1);
    }
  }

  /** A schedule in which every step is a move of one of the first n threads, none of them a new request. */
  ghost predicate Draining(s: State, sched: seq<Tid>, n: nat)
    decreases |sched|
  {
    sched == [] ||
    var before, t := sched[..|sched| - 1], sched[|sched| - 1];
    t < n && Draining(s, before, n) && InFlight(Run(s, before).pc(t)) && Moves(Run(s, before), t)
  }

  /** Without new requests such a schedule has at most 8 steps per thread. */
  lemma {:induction false} DrainIsBounded(s: State, sched: seq<Tid>, n: nat)
    requires Draining(s, sched, n)
    ensures |sched| + Work(Run(s, sched), n) <= Work(s, n) <= 8 * n
    decreases |sched|
  {
    WorkBound(s, n);
    if sched != [] {
      var before, t := sched[..|sched| - 1], sched[|sched| - 1];
      DrainIsBounded(s, before, n);
      WorkDrops(Run(s, before), t, n);
    }
  }

  lemma {:induction false} WorkBound(s: State, n: nat)
    ensures Work(s, n) <= 8 * n
  {
    if n > 0 {
      WorkBound(s, n - 1);
    }
  }

  /** As long as a thread is not idle, one of those that are not can move. */
  lemma InFlightMoves(s: State, q: seq<Tid>, t: Tid) returns (u: Tid)
    requires Inv(s, q) && InFlight(s.pc(t))
    ensures InFlight(s.pc(u)) && Moves(s, u)
  {
    if q == [] {
      assert t !in q;
      u := t;
    } else {
      u := QueueMoves(s, q);
    }
  }

  lemma {:induction false} DrainOn(s: State, rest: seq<Tid>, q: seq<Tid>, n: nat) returns (all: seq<Tid>)
    requires Inv(Run(s, rest), q) && Draining(s, rest, n) && forall t: Tid | InFlight(Run(s, rest).pc(t)) :: t < n
    ensures Draining(s, all, n) && forall t :: !InFlight(Run(s, all).pc(t))
    decreases Work(Run(s, rest), n)
  {
    hide Inv;
    all := rest;
    if t: Tid :| InFlight(Run(s, rest).pc(t)) {
      var s' := Run(s, rest);
      var u := InFlightMoves(s', q, t);
      var next := rest + [u];
      assert next[..|next| - 1] == rest;
      StepKeepsInv(s', q, u);
      WorkDrops(s', u, n);
      OthersStay(s', u);
      all := DrainOn(s, next, QueueStep(s', q, u), n);
    }
  }

  lemma OthersStay(s: State, u: Tid)
    ensures forall t | t != u :: Step(s, u).pc(t) == s.pc(t)
  {
  }

  /** From every reachable state the lock can be drained, without new requests, until every thread is idle. */
  lemma CanDrain(s: State, sched: seq<Tid>, n: nat) returns (rest: seq<Tid>)
    requires Initial(s) && forall t: Tid | InFlight(Run(s, sched).pc(t)) :: t < n
    ensures var s' := Run(s, sched);
            Draining(s', rest, n) && |rest| <= 8 * n && Run(s', rest).tail.None? && forall t :: Run(s', rest).pc(t).Idle?
  {
    RunInvariant(s, sched);
    var s' := Run(s, sched);
    rest := DrainOn(s', [], Queue(s, sched), n);
    DrainIsBounded(s', rest, n);
    DrainedIsFree(s', Queue(s, sched), rest);
  }

  lemma {:induction false} DrainedIsFree(s: State, q: seq<Tid>, rest: seq<Tid>)
    requires Inv(s, q) && forall t :: !InFlight(Run(s, rest).pc(t))
    ensures Run(s, rest).tail.None?
  {
    var q' := InvAfter(s, q, rest);
    assert forall t: Tid :: t !in q';
  }

  lemma {:induction false} InvAfter(s: State, q: seq<Tid>, rest: seq<Tid>) returns (q': seq<Tid>)
    requires Inv(s, q)
    ensures Inv(Run(s, rest), q')
    decreases |rest|
  {
    hide Inv;
    q' := q;
    if rest != [] {
      var before, t := rest[..|rest| - 1], rest[|rest| - 1];
      var b := InvAfter(s, q, before);
      StepKeepsInv(Run(s, before), b, t);
      q' := QueueStep(Run(s, before), b, t);
    }
  }
}
