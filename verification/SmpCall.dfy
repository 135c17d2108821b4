/**
 The cross-CPU function call protocol of kernel/core/smp.c as a state machine.

 Every CPU runs a caller (smp_call_function_single) and an interrupt handler (the flush of its queue).
 The call_single_data of a waiting call lives on the caller's stack, that of any other call is the
 per-CPU one.  Queue links are explicit: a csd has one link field, which its owner may overwrite as
 soon as the csd is unlocked.  Each access to shared memory is one step and a run is any sequence of
 steps of any CPUs; a step that is not enabled does nothing.
 */
module SmpCall {
  import opened Options

  type Cpu = nat

  datatype Csd = Stack(cpu: Cpu) | PerCpu(cpu: Cpu)

  datatype Call = Call(func: nat, info: nat)

  /** A call as it was put on a queue; the id tells calls apart and is not part of the program. */
  datatype Node = Node(csd: Csd, call: Call, id: nat)

  const ENXIO: int := 6

  /** The caller: the next thing smp_call_function_single is about to do. */
  datatype Pc =
    | Idle
    | LockCsd(target: Cpu, call: Call, id: nat)              // csd_lock on the per-CPU csd
    | Exec(csd: Csd, target: Cpu, call: Call, id: nat)       // enter generic_exec_single with a locked csd
    | RunLocal(csd: Csd, target: Cpu, call: Call, id: nat)   // the target is this CPU: call the function
    | AddList(csd: Csd, target: Cpu, call: Call, id: nat)    // llist_add
    | SendIpi(csd: Csd, target: Cpu, call: Call, id: nat)    // the queue was empty: send the interrupt
    | Finish(csd: Csd, target: Cpu, call: Call, id: nat, err: int)  // csd_lock_wait if asked to, then return

  /** The handler: the next thing flush_smp_call_function_queue is about to do. */
  datatype Flush =
    | Off
    | Started                                               // llist_del_all
    | Reversing(head: Option<Csd>, newHead: Option<Csd>)    // the loop of llist_reverse_order
    | AtEntry(pos: Option<Csd>)                             // head of the traversal loop
    | RunSync(node: Node, pos: Option<Csd>)                 // synchronous: call the function, then
    | UnlockSync(node: Node, pos: Option<Csd>)              //   csd_unlock
    | UnlockAsync(node: Node, pos: Option<Csd>)             // otherwise: csd_unlock, then
    | RunAsync(node: Node, pos: Option<Csd>)                //   call the function

  /** Who has a csd at the moment. */
  datatype Place = Free | Prepared | Queued(cpu: Cpu) | Batched(cpu: Cpu) | Current(cpu: Cpu)

  /** History variables: what has happened, and the lists behind the pointers.  No step depends on them. */
  datatype History = History(
    issued: nat,                  // how many calls have begun
    id: Csd -> nat,               // the call a csd is used for
    added: Cpu -> seq<Node>,      // everything put on a queue by llist_add, in order
    ran: Cpu -> seq<Node>,        // everything the handler has called, in order
    local: Cpu -> seq<Node>,      // everything called directly because the target is the caller
    place: Csd -> Place,
    queue: Cpu -> seq<Node>,      // the queue, oldest first
    batch: Cpu -> seq<Node>,      // what the handler has taken and not reached yet, oldest first
    left: Cpu -> nat,             // how much of the batch is still to be reversed
    cause: Cpu -> Cpu,            // the last CPU that found the queue empty
    caller: nat -> Cpu,           // who made a call
    slot: nat -> Option<(Cpu, nat)>)  // the queue a call was put on, and its number in `added`

  datatype State = State(
    online: Cpu -> bool,
    lock: Csd -> bool,            // CSD_FLAG_LOCK
    sync: Csd -> bool,            // CSD_FLAG_SYNCHRONOUS
    call: Csd -> Call,            // func and info
    link: Csd -> Option<Csd>,     // llist.next
    head: Cpu -> Option<Csd>,     // call_single_queue
    ipi: Cpu -> bool,             // an interrupt is on its way
    pc: Cpu -> Pc,
    fl: Cpu -> Flush,
    h: History)

  function Put<V>(f: Cpu -> V, c: Cpu, v: V): Cpu -> V { (x: Cpu) => if x == c then v else f(x) }

  function Set<V>(f: Csd -> V, d: Csd, v: V): Csd -> V { (x: Csd) => if x == d then v else f(x) }

  datatype Event =
    | Begin(cpu: Cpu, target: Cpu, call: Call, wait: bool)
    | CallerStep(cpu: Cpu)
    | Interrupt(cpu: Cpu)
    | FlushStep(cpu: Cpu)

  function At(s: State, c: Cpu, pc: Pc): State { s.(pc := Put(s.pc, c, pc)) }

  function Unlock(s: State, d: Csd): State {
    s.(lock := Set(s.lock, d, false), sync := Set(s.sync, d, false), h := s.h.(place := Set(s.h.place, d, Free)))
  }

  function LockFor(s: State, d: Csd, id: nat): State {
    s.(lock := Set(s.lock, d, true), h := s.h.(place := Set(s.h.place, d, Prepared), id := Set(s.h.id, d, id)))
  }

  /** One step of smp_call_function_single on CPU c. */
  function StepCaller(s: State, c: Cpu): State {
    match s.pc(c)
    case Idle => s
    case LockCsd(t, call, id) =>
      if s.lock(PerCpu(c)) then s else At(LockFor(s, PerCpu(c), id), c, Exec(PerCpu(c), t, call, id))
    case Exec(d, t, call, id) =>
      if t == c then At(Unlock(s, d), c, RunLocal(d, t, call, id))
      else if !s.online(t) then At(Unlock(s, d), c, Finish(d, t, call, id, -ENXIO))
      else At(s.(call := Set(s.call, d, call)), c, AddList(d, t, call, id))
    case RunLocal(d, t, call, id) =>
      At(s.(h := s.h.(local := Put(s.h.local, c, s.h.local(c) + [Node(d, call, id)]))), c, Finish(d, t, call, id, 0))
    case AddList(d, t, call, id) =>
      var n := Node(d, call, id);
      At(s.(link := Set(s.link, d, s.head(t)), head := Put(s.head, t, Some(d)),
            h := s.h.(added := Put(s.h.added, t, s.h.added(t) + [n]), queue := Put(s.h.queue, t, s.h.queue(t) + [n]),
                      place := Set(s.h.place, d, Queued(t)), slot := Put(s.h.slot, id, Some((t, |s.h.added(t)|))),
                      cause := if s.head(t).None? then Put<Cpu>(s.h.cause, t, c) else s.h.cause)),
         c, if s.head(t).None? then SendIpi(d, t, call, id) else Finish(d, t, call, id, 0))
    case SendIpi(d, t, call, id) => At(s.(ipi := Put(s.ipi, t, true)), c, Finish(d, t, call, id, 0))
    case Finish(d, _, _, _, _) => if d.Stack? && s.lock(d) then s else At(s, c, Idle)
  }

  function FlushAt(s: State, c: Cpu, fl: Flush): State { s.(fl := Put(s.fl, c, fl)) }

  function LogRun(s: State, c: Cpu, n: Node): State {
    s.(h := s.h.(ran := Put(s.h.ran, c, s.h.ran(c) + [n])))
  }

  function SetPlaces(place: Csd -> Place, ns: seq<Node>, p: Place): Csd -> Place {
    (d: Csd) => if exists i :: 0 <= i < |ns| && ns[i].csd == d then p else place(d)
  }

  /** One step of flush_smp_call_function_queue on CPU c. */
  function StepFlush(s: State, c: Cpu): State {
    match s.fl(c)
    case Off => s
    case Started =>
      var q := s.h.queue(c);
      FlushAt(s.(head := Put(s.head, c, None),
                 h := s.h.(queue := Put(s.h.queue, c, []), batch := Put(s.h.batch, c, q), left := Put<nat>(s.h.left, c, |q|),
                           place := SetPlaces(s.h.place, q, Batched(c)))),
              c, Reversing(s.head(c), None))
    case Reversing(head, newHead) =>
      if head.None? then FlushAt(s, c, AtEntry(newHead))
      else
        var k := s.h.left(c);
        FlushAt(s.(link := Set(s.link, head.value, newHead),
                   h := s.h.(left := Put<nat>(s.h.left, c, if k > 0 then k - 1 else 0))),
                c, Reversing(s.link(head.value), head))
    case AtEntry(pos) =>
      if pos.None? then FlushAt(s, c, Off)
      else
        var d, b := pos.value, s.h.batch(c);
        var n := Node(d, s.call(d), s.h.id(d));
        FlushAt(s.(h := s.h.(batch := Put(s.h.batch, c, if b == [] then [] else b[1..]),
                             place := Set(s.h.place, d, Current(c)))),
                c, if s.sync(d) then RunSync(n, s.link(d)) else UnlockAsync(n, s.link(d)))
    case RunSync(n, pos) => FlushAt(LogRun(s, c, n), c, UnlockSync(n, pos))
    case UnlockSync(n, pos) => FlushAt(Unlock(s, n.csd), c, AtEntry(pos))
    case UnlockAsync(n, pos) => FlushAt(Unlock(s, n.csd), c, RunAsync(n, pos))
    case RunAsync(n, pos) => FlushAt(LogRun(s, c, n), c, AtEntry(pos))
  }

  function Issue(h: History, c: Cpu): History {
    h.(issued := h.issued + 1, caller := Put<Cpu>(h.caller, h.issued, c))
  }

  /** Enter smp_call_function_single: a waiting call has a locked, synchronous csd on its stack. */
  function StepBegin(s: State, c: Cpu, t: Cpu, call: Call, wait: bool): State {
    if !s.pc(c).Idle? then s
    else if wait then
      var d, id := Stack(c), s.h.issued;
      var s1 := LockFor(s, d, id).(sync := Set(s.sync, d, true));
      At(s1.(h := Issue(s1.h, c)), c, Exec(d, t, call, id))
    else At(s.(h := Issue(s.h, c)), c, LockCsd(t, call, s.h.issued))
  }

  function Step(s: State, e: Event): State {
    match e
    case Begin(c, t, call, wait) => StepBegin(s, c, t, call, wait)
    case CallerStep(c) => StepCaller(s, c)
    case Interrupt(c) =>
      if s.ipi(c) && s.fl(c).Off? then FlushAt(s.(ipi := Put(s.ipi, c, false)), c, Started) else s
    case FlushStep(c) => StepFlush(s, c)
  }

  ghost function Run(s: State, es: seq<Event>): State
    decreases |es|
  {
    if es == [] then s else Step(Run(s, es[..|es| - 1]), es[|es| - 1])
  }

  ghost predicate Initial(s: State) {
    && (forall d :: !s.lock(d) && !s.sync(d) && s.h.place(d) == Free)
    && (forall c :: s.pc(c) == Idle && s.fl(c) == Off && s.head(c) == None && !s.ipi(c))
    && (forall c :: s.h.added(c) == s.h.ran(c) == s.h.local(c) == s.h.queue(c) == s.h.batch(c) == [])
    && s.h.issued == 0 && (forall id :: s.h.slot(id) == None)
  }

  /** Such a state, for any set of online CPUs and whatever is in the csds. */
  function Booted(online: Cpu -> bool, call: Csd -> Call, link: Csd -> Option<Csd>): (s: State)
    ensures Initial(s) && s.online == online
  {
    State(online, _ => false, _ => false, call, link, _ => None, _ => false, _ => Idle, _ => Off,
          History(0, _ => 0, _ => [], _ => [], _ => [], _ => Free, _ => [], _ => [], _ => 0, _ => 0, _ => 0, _ => None))
  }

  // ---------------------------------------------------------------------------
  // The invariant

  /** The lock bit says that somebody has the csd; the synchronous bit marks the csd of a waiting call. */
  ghost predicate CsdOk(s: State, d: Csd) {
    && (s.lock(d) <==> s.h.place(d) != Free)
    && (s.sync(d) <==> s.lock(d) && d.Stack?)
  }

  /** The functions called on behalf of CPU c's call to target. */
  ghost predicate HasRun(h: History, c: Cpu, target: Cpu, n: Node) {
    n in (if target == c then h.local(c) else h.ran(target))
  }

  /** A waiting call: while its csd is locked it is on its way through the target, afterwards it has run. */
  ghost predicate WaitOk(s: State, c: Cpu, d: Csd, t: Cpu, call: Call, id: nat) {
    var p := s.h.place(d);
    if p == Free then HasRun(s.h, c, t, Node(d, call, id))
    else (p == Queued(t) || p == Batched(t) || p == Current(t)) && t != c && s.h.id(d) == id && s.call(d) == call
  }

  ghost predicate CallerOk(s: State, c: Cpu) {
    var free := s.h.place(Stack(c)) == Free;
    match s.pc(c)
    case Idle => free
    case LockCsd(_, _, _) => free
    case Exec(d, _, _, id) => d.cpu == c && s.h.place(d) == Prepared && s.h.id(d) == id && (d.PerCpu? ==> free)
    case RunLocal(d, t, _, _) => d.cpu == c && t == c && free
    case AddList(d, t, call, id) =>
      d.cpu == c && s.h.place(d) == Prepared && s.h.id(d) == id && s.call(d) == call && t != c && (d.PerCpu? ==> free)
    case SendIpi(d, t, call, id) => d.cpu == c && if d.PerCpu? then free else WaitOk(s, c, d, t, call, id)
    case Finish(d, t, call, id, err) =>
      d.cpu == c && if d.PerCpu? || err != 0 then free else WaitOk(s, c, d, t, call, id)
  }

  /** The csd of a listed call is where the list is and holds what its caller stored. */
  ghost predicate Listed(s: State, n: Node, p: Place) {
    s.h.place(n.csd) == p && s.call(n.csd) == n.call && s.h.id(n.csd) == n.id
  }

  ghost predicate AllListed(s: State, ns: seq<Node>, p: Place) {
    && (forall i | 0 <= i < |ns| :: Listed(s, ns[i], p))
    && (forall i, j | 0 <= i < j < |ns| :: ns[i].csd != ns[j].csd)
  }

  function CsdAt(ns: seq<Node>, i: int): Option<Csd> {
    if 0 <= i < |ns| then Some(ns[i].csd) else None
  }

  ghost predicate BackAt(s: State, ns: seq<Node>, i: int) {
    0 <= i < |ns| ==> s.link(ns[i].csd) == CsdAt(ns, i - 1)
  }

  ghost predicate ForwardAt(s: State, ns: seq<Node>, i: int) {
    0 <= i < |ns| ==> s.link(ns[i].csd) == CsdAt(ns, i + 1)
  }

  /** Each element of ns[..k] links to the one before it. */
  ghost predicate LinksBack(s: State, ns: seq<Node>, k: nat) {
    forall i | i < k :: BackAt(s, ns, i)
  }

  /** Each element of ns[k..] links to the one after it. */
  ghost predicate LinksForward(s: State, ns: seq<Node>, k: nat) {
    forall i | k <= i :: ForwardAt(s, ns, i)
  }

  /** The queue pointer heads the list of the queued calls, newest first. */
  ghost predicate QueueOk(s: State, c: Cpu) {
    var q := s.h.queue(c);
    AllListed(s, q, Queued(c)) && s.head(c) == CsdAt(q, |q| - 1) && LinksBack(s, q, |q|)
  }

  ghost predicate BatchOk(s: State, c: Cpu) {
    var b := s.h.batch(c);
    && AllListed(s, b, Batched(c))
    && match s.fl(c)
       case Off => b == []
       case Started => b == []
       case Reversing(head, newHead) =>
         var k := s.h.left(c);
         && k <= |b| && head == CsdAt(b, k - 1) && newHead == CsdAt(b, k)
         && LinksBack(s, b, k) && LinksForward(s, b, k)
       case AtEntry(pos) => pos == CsdAt(b, 0) && LinksForward(s, b, 0)
       case RunSync(n, pos) =>
         pos == CsdAt(b, 0) && LinksForward(s, b, 0) && Listed(s, n, Current(c)) && n.csd.Stack?
       case UnlockSync(n, pos) =>
         && pos == CsdAt(b, 0) && LinksForward(s, b, 0) && Listed(s, n, Current(c)) && n.csd.Stack?
         && n in s.h.ran(c)
       case UnlockAsync(n, pos) =>
         pos == CsdAt(b, 0) && LinksForward(s, b, 0) && Listed(s, n, Current(c)) && n.csd.PerCpu?
       case RunAsync(n, pos) => pos == CsdAt(b, 0) && LinksForward(s, b, 0)
  }

  /** The call that the handler has taken off the batch and not called yet. */
  function InFlight(fl: Flush): seq<Node> {
    if fl.RunSync? || fl.UnlockAsync? || fl.RunAsync? then [fl.node] else []
  }

  /** Everything ever queued has run, is in flight, or is still listed, in this order. */
  ghost predicate LogOk(s: State, c: Cpu) {
    s.h.added(c) == s.h.ran(c) + InFlight(s.fl(c)) + s.h.batch(c) + s.h.queue(c)
  }

  /** A nonempty queue has an interrupt pending, about to be sent, or taken by a handler that will empty it. */
  ghost predicate IpiOk(s: State, c: Cpu) {
    s.head(c).Some? ==> s.ipi(c) || s.fl(c).Started? || WillSend(s, s.h.cause(c), c)
  }

  ghost predicate WillSend(s: State, c: Cpu, target: Cpu) {
    s.pc(c).SendIpi? && s.pc(c).target == target
  }

  ghost predicate Inv(s: State) {
    && (forall d :: CsdOk(s, d))
    && (forall c :: CallerOk(s, c))
    && (forall c :: QueueOk(s, c))
    && (forall c :: BatchOk(s, c))
    && (forall c :: LogOk(s, c))
    && (forall c :: IpiOk(s, c))
  }

  // ---------------------------------------------------------------------------
  // Framing: what a step leaves alone stays well formed

  /** Every csd that is at place p stays there, with its contents and its link. */
  ghost predicate Kept(s: State, s': State, p: Place) {
    forall d | s.h.place(d) == p ::
      s'.h.place(d) == p && s'.call(d) == s.call(d) && s'.h.id(d) == s.h.id(d) && s'.link(d) == s.link(d)
  }

  lemma QueueFrame(s: State, s': State, x: Cpu)
    requires QueueOk(s, x) && Kept(s, s', Queued(x))
    requires s'.h.queue(x) == s.h.queue(x) && s'.head(x) == s.head(x)
    ensures QueueOk(s', x)
  {
    var q := s.h.queue(x);
    assert forall i | 0 <= i < |q| :: Listed(s, q[i], Queued(x));
    forall i | i < |q| ensures BackAt(s', q, i) { assert BackAt(s, q, i); }
  }

  lemma BatchFrame(s: State, s': State, x: Cpu)
    requires BatchOk(s, x) && Kept(s, s', Batched(x)) && Kept(s, s', Current(x))
    requires s'.h.batch(x) == s.h.batch(x) && s'.h.left(x) == s.h.left(x) && s'.fl(x) == s.fl(x)
    requires s.h.ran(x) <= s'.h.ran(x)
    ensures BatchOk(s', x)
  {
    var b, k := s.h.batch(x), if s.fl(x).Reversing? then s.h.left(x) else 0;
    assert forall i | 0 <= i < |b| :: Listed(s, b[i], Batched(x));
    forall i | i < k ensures LinksBack(s, b, k) ==> BackAt(s', b, i) {
      assert LinksBack(s, b, k) ==> BackAt(s, b, i);
    }
    forall i | k <= i ensures LinksForward(s, b, k) ==> ForwardAt(s', b, i) {
      assert LinksForward(s, b, k) ==> ForwardAt(s, b, i);
    }
  }

  lemma ListFrame(s: State, s': State, b: seq<Node>, p: Place)
    requires AllListed(s, b, p) && Kept(s, s', p)
    ensures AllListed(s', b, p)
    ensures LinksForward(s, b, 0) ==> LinksForward(s', b, 0)
  {
    assert forall i | 0 <= i < |b| :: Listed(s, b[i], p);
    if LinksForward(s, b, 0) {
      forall i | 0 <= i ensures ForwardAt(s', b, i) { assert ForwardAt(s, b, i); }
    }
  }

  /** The csds of CPU x are as before. */
  ghost predicate OwnKept(s: State, s': State, x: Cpu) {
    forall d: Csd | d.cpu == x ::
      s'.h.place(d) == s.h.place(d) && s'.call(d) == s.call(d) && s'.h.id(d) == s.h.id(d)
  }

  ghost predicate LogsGrow(s: State, s': State) {
    forall x :: s.h.ran(x) <= s'.h.ran(x) && s.h.local(x) <= s'.h.local(x)
  }

  lemma CallerFrame(s: State, s': State, x: Cpu)
    requires CallerOk(s, x) && OwnKept(s, s', x) && s'.pc(x) == s.pc(x) && LogsGrow(s, s')
    ensures CallerOk(s', x)
  {
    assert s.h.local(x) <= s'.h.local(x);
    if s.pc(x).SendIpi? || s.pc(x).Finish? {
      var t := s.pc(x).target;
      assert s.h.ran(t) <= s'.h.ran(t);
    }
  }

  // ---------------------------------------------------------------------------
  // Caller steps

  lemma BeginKeeps(s: State, c: Cpu, t: Cpu, call: Call, wait: bool)
    requires Inv(s)
    ensures Inv(StepBegin(s, c, t, call, wait))
  {
    hide QueueOk;
    hide BatchOk;
    var s' := StepBegin(s, c, t, call, wait);
    assert CallerOk(s, c);
    forall d ensures CsdOk(s', d) { assert CsdOk(s, d); }
    forall x ensures CallerOk(s', x) { assert CallerOk(s, x); if x != c { CallerFrame(s, s', x); } }
    forall x ensures QueueOk(s', x) { QueueFrame(s, s', x); }
    forall x ensures BatchOk(s', x) { BatchFrame(s, s', x); }
    forall x ensures LogOk(s', x) { assert LogOk(s, x); }
    forall x ensures IpiOk(s', x) { assert IpiOk(s, x); }
  }

  /** Steps of a caller outside llist_add: no list changes. */
  lemma LockKeeps(s: State, c: Cpu)
    requires Inv(s) && s.pc(c).LockCsd?
    ensures Inv(StepCaller(s, c))
  {
    hide QueueOk;
    hide BatchOk;
    var s' := StepCaller(s, c);
    assert CallerOk(s, c) && CsdOk(s, PerCpu(c));
    forall d ensures CsdOk(s', d) { assert CsdOk(s, d); }
    forall x ensures CallerOk(s', x) { if x != c { CallerFrame(s, s', x); } }
    forall x ensures QueueOk(s', x) { QueueFrame(s, s', x); }
    forall x ensures BatchOk(s', x) { BatchFrame(s, s', x); }
    forall x ensures LogOk(s', x) { assert LogOk(s, x); }
    forall x ensures IpiOk(s', x) { assert IpiOk(s, x); }
  }

  lemma ExecCaller(s: State, c: Cpu)
    requires CallerOk(s, c) && s.pc(c).Exec?
    ensures CallerOk(StepCaller(s, c), c) && s.pc(c).csd.cpu == c && s.h.place(s.pc(c).csd) == Prepared
  {
  }

  lemma ExecKeeps(s: State, c: Cpu)
    requires Inv(s) && s.pc(c).Exec?
    ensures Inv(StepCaller(s, c))
  {
    hide QueueOk;
    hide BatchOk;
    hide LogOk;
    hide IpiOk;
    hide CallerOk;
    var s' := StepCaller(s, c);
    ExecCaller(s, c);
    forall d ensures CsdOk(s', d) { assert CsdOk(s, d); }
    forall x ensures CallerOk(s', x) { if x != c { CallerFrame(s, s', x); } }
    forall x ensures QueueOk(s', x) { QueueFrame(s, s', x); }
    forall x ensures BatchOk(s', x) { BatchFrame(s, s', x); }
    forall x ensures LogOk(s', x) && IpiOk(s', x) { LogFrame(s, s', c, x); }
  }

  lemma LogFrame(s: State, s': State, c: Cpu, x: Cpu)
    requires LogOk(s, x) && IpiOk(s, x) && !s.pc(c).SendIpi?
    requires s'.h == s.h.(place := s'.h.place, id := s'.h.id) && s'.fl == s.fl && s'.head == s.head && s'.ipi == s.ipi
    requires forall y | y != c :: s'.pc(y) == s.pc(y)
    ensures LogOk(s', x) && IpiOk(s', x)
  {
  }

  lemma ReturnKeeps(s: State, c: Cpu)
    requires Inv(s) && (s.pc(c).RunLocal? || s.pc(c).SendIpi? || s.pc(c).Finish?)
    ensures Inv(StepCaller(s, c))
  {
    hide QueueOk;
    hide BatchOk;
    var s' := StepCaller(s, c);
    assert CallerOk(s, c) && CsdOk(s, Stack(c));
    forall d ensures CsdOk(s', d) { assert CsdOk(s, d); }
    forall x ensures CallerOk(s', x) { if x != c { CallerFrame(s, s', x); } }
    forall x ensures QueueOk(s', x) { QueueFrame(s, s', x); }
    forall x ensures BatchOk(s', x) { BatchFrame(s, s', x); }
    forall x ensures LogOk(s', x) { assert LogOk(s, x); }
    forall x ensures IpiOk(s', x) { assert IpiOk(s, x); }
  }

  lemma AddedQueue(s: State, c: Cpu)
    requires s.pc(c).AddList? && CallerOk(s, c) && QueueOk(s, s.pc(c).target)
    ensures QueueOk(StepCaller(s, c), s.pc(c).target)
  {
    var s', t, d := StepCaller(s, c), s.pc(c).target, s.pc(c).csd;
    var q, q' := s.h.queue(t), s'.h.queue(t);
    assert q' == q + [Node(d, s.pc(c).call, s.pc(c).id)];
    assert forall i | 0 <= i < |q| :: Listed(s, q[i], Queued(t)) && q'[i] == q[i] && q[i].csd != d;
    assert AllListed(s', q', Queued(t));
    forall i | i < |q'| ensures BackAt(s', q', i) { assert BackAt(s, q, i); }
  }

  lemma AddKeeps(s: State, c: Cpu)
    requires Inv(s) && s.pc(c).AddList?
    ensures Inv(StepCaller(s, c))
  {
    hide QueueOk;
    hide BatchOk;
    var s', t := StepCaller(s, c), s.pc(c).target;
    assert CallerOk(s, c);
    forall d ensures CsdOk(s', d) { assert CsdOk(s, d); }
    forall x ensures CallerOk(s', x) { if x != c { CallerFrame(s, s', x); } }
    forall x ensures QueueOk(s', x) { if x == t { AddedQueue(s, c); } else { QueueFrame(s, s', x); } }
    forall x ensures BatchOk(s', x) { BatchFrame(s, s', x); }
    forall x ensures LogOk(s', x) { assert LogOk(s, x); }
    forall x ensures IpiOk(s', x) { assert IpiOk(s, x); }
  }

  lemma InterruptKeeps(s: State, c: Cpu)
    requires Inv(s)
    ensures Inv(Step(s, Interrupt(c)))
  {
    hide QueueOk;
    var s' := Step(s, Interrupt(c));
    assert BatchOk(s, c);
    forall d ensures CsdOk(s', d) { assert CsdOk(s, d); }
    forall x ensures CallerOk(s', x) { CallerFrame(s, s', x); }
    forall x ensures QueueOk(s', x) { QueueFrame(s, s', x); }
    forall x ensures BatchOk(s', x) { if x != c { BatchFrame(s, s', x); } }
    forall x ensures LogOk(s', x) { assert LogOk(s, x); }
    forall x ensures IpiOk(s', x) { assert IpiOk(s, x); }
  }

  // ---------------------------------------------------------------------------
  // Handler steps

  lemma TakenBatch(s: State, c: Cpu)
    requires s.fl(c).Started? && QueueOk(s, c)
    ensures BatchOk(StepFlush(s, c), c) && QueueOk(StepFlush(s, c), c)
  {
    var s', q := StepFlush(s, c), s.h.queue(c);
    assert s'.h.batch(c) == q && s'.h.queue(c) == [];
    assert forall i | 0 <= i < |q| :: Listed(s, q[i], Queued(c));
    assert AllListed(s', q, Batched(c));
    forall i | i < |q| ensures BackAt(s', q, i) { assert BackAt(s, q, i); }
  }

  lemma TakenPlace(s: State, c: Cpu, d: Csd)
    requires s.fl(c).Started? && QueueOk(s, c)
    ensures var p, p' := s.h.place(d), StepFlush(s, c).h.place(d); p' == p || (p == Queued(c) && p' == Batched(c))
  {
    var q := s.h.queue(c);
    assert forall i | 0 <= i < |q| :: Listed(s, q[i], Queued(c));
  }

  /** The handler of CPU c takes the whole queue. */
  lemma TakeKeeps(s: State, c: Cpu)
    requires Inv(s) && s.fl(c).Started?
    ensures Inv(StepFlush(s, c))
  {
    hide QueueOk;
    hide BatchOk;
    hide SetPlaces;
    var s' := StepFlush(s, c);
    TakenBatch(s, c);
    forall d ensures CsdOk(s', d) { assert CsdOk(s, d); TakenPlace(s, c, d); }
    forall x ensures CallerOk(s', x) {
      assert CallerOk(s, x);
      TakenPlace(s, c, Stack(x));
      TakenPlace(s, c, PerCpu(x));
    }
    forall d ensures var p, p' := s.h.place(d), s'.h.place(d); p' == p || (p == Queued(c) && p' == Batched(c)) {
      TakenPlace(s, c, d);
    }
    forall x ensures QueueOk(s', x) { if x != c { QueueFrame(s, s', x); } }
    forall x ensures BatchOk(s', x) { if x != c { BatchFrame(s, s', x); } }
    TakenLogs(s, c);
  }

  lemma TakenLogs(s: State, c: Cpu)
    requires s.fl(c).Started? && (forall x :: LogOk(s, x)) && (forall x :: IpiOk(s, x)) && BatchOk(s, c)
    ensures var s' := StepFlush(s, c); (forall x :: LogOk(s', x)) && (forall x :: IpiOk(s', x))
  {
    hide AllListed;
    hide SetPlaces;
    var s' := StepFlush(s, c);
    forall x ensures LogOk(s', x) { assert LogOk(s, x); }
    forall x ensures IpiOk(s', x) { assert IpiOk(s, x); }
  }

  /** One turn of the reversal moves the split point of the batch down by one. */
  lemma ReversedBatch(s: State, c: Cpu)
    requires s.fl(c).Reversing? && BatchOk(s, c)
    ensures BatchOk(StepFlush(s, c), c)
  {
    var s', b, k := StepFlush(s, c), s.h.batch(c), s.h.left(c);
    assert forall i | 0 <= i < |b| :: Listed(s, b[i], Batched(c));
    assert AllListed(s', b, Batched(c));
    if k > 0 {
      assert BackAt(s, b, k - 1);
      forall i | i < k - 1 ensures BackAt(s', b, i) { assert BackAt(s, b, i); }
      forall i | k - 1 <= i ensures ForwardAt(s', b, i) { if k <= i { assert ForwardAt(s, b, i); } }
    } else {
      ListFrame(s, s', b, Batched(c));
    }
  }

  lemma ReverseKeeps(s: State, c: Cpu)
    requires Inv(s) && s.fl(c).Reversing?
    ensures Inv(StepFlush(s, c))
  {
    hide QueueOk;
    var s', b, k := StepFlush(s, c), s.h.batch(c), s.h.left(c);
    assert BatchOk(s, c);
    assert k > 0 ==> Listed(s, b[k - 1], Batched(c));
    forall d ensures CsdOk(s', d) { assert CsdOk(s, d); }
    forall x ensures CallerOk(s', x) { CallerFrame(s, s', x); }
    forall x ensures QueueOk(s', x) { QueueFrame(s, s', x); }
    forall x ensures BatchOk(s', x) { if x == c { ReversedBatch(s, c); } else { BatchFrame(s, s', x); } }
    forall x ensures LogOk(s', x) { assert LogOk(s, x); }
    forall x ensures IpiOk(s', x) { assert IpiOk(s, x); }
  }

  /** The handler reaches the next csd: it is the first of the batch, and the rest stays linked. */
  lemma VisitedBatch(s: State, c: Cpu)
    requires s.fl(c).AtEntry? && BatchOk(s, c) && forall d :: CsdOk(s, d)
    ensures BatchOk(StepFlush(s, c), c)
    ensures s.fl(c).pos.Some? ==> s.h.batch(c) == InFlight(StepFlush(s, c).fl(c)) + StepFlush(s, c).h.batch(c)
  {
    var s', b := StepFlush(s, c), s.h.batch(c);
    if b != [] {
      var b' := b[1..];
      assert Listed(s, b[0], Batched(c)) && CsdOk(s, b[0].csd) && ForwardAt(s, b, 0);
      assert forall i | 0 <= i < |b'| :: b'[i] == b[i + 1] && Listed(s, b[i + 1], Batched(c)) && b[i + 1].csd != b[0].csd;
      assert AllListed(s', b', Batched(c));
      forall i | 0 <= i ensures ForwardAt(s', b', i) { assert ForwardAt(s, b, i + 1); }
    }
  }

  lemma VisitKeeps(s: State, c: Cpu)
    requires Inv(s) && s.fl(c).AtEntry?
    ensures Inv(StepFlush(s, c))
  {
    hide QueueOk;
    hide BatchOk;
    hide LogOk;
    hide IpiOk;
    var s' := StepFlush(s, c);
    VisitedBatch(s, c);
    if s.fl(c).pos.Some? { VisitedPlace(s, c); }
    forall d ensures CsdOk(s', d) { assert CsdOk(s, d); }
    forall x ensures CallerOk(s', x) { assert CallerOk(s, x); }
    forall x ensures QueueOk(s', x) { QueueFrame(s, s', x); }
    forall x ensures BatchOk(s', x) { if x != c { BatchFrame(s, s', x); } }
    VisitedLogs(s, c);
  }

  lemma VisitedPlace(s: State, c: Cpu)
    requires s.fl(c).AtEntry? && BatchOk(s, c) && s.fl(c).pos.Some?
    ensures s.h.place(s.fl(c).pos.value) == Batched(c)
  {
    assert Listed(s, s.h.batch(c)[0], Batched(c));
  }

  lemma VisitedLogs(s: State, c: Cpu)
    requires Inv(s) && s.fl(c).AtEntry?
    ensures var s' := StepFlush(s, c); (forall x :: LogOk(s', x)) && (forall x :: IpiOk(s', x))
  {
    hide QueueOk;
    hide AllListed;
    hide CallerOk;
    var s' := StepFlush(s, c);
    VisitedBatch(s, c);
    assert BatchOk(s, c);
    forall x ensures LogOk(s', x) { assert LogOk(s, x); }
    forall x ensures IpiOk(s', x) { assert IpiOk(s, x); }
  }

  lemma RunBatch(s: State, c: Cpu)
    requires BatchOk(s, c) && (s.fl(c).RunSync? || s.fl(c).RunAsync?)
    ensures BatchOk(StepFlush(s, c), c)
  {
    ListFrame(s, StepFlush(s, c), s.h.batch(c), Batched(c));
  }

  lemma RunKeeps(s: State, c: Cpu)
    requires Inv(s) && (s.fl(c).RunSync? || s.fl(c).RunAsync?)
    ensures Inv(StepFlush(s, c))
  {
    hide QueueOk;
    hide BatchOk;
    var s' := StepFlush(s, c);
    RunBatch(s, c);
    forall d ensures CsdOk(s', d) { assert CsdOk(s, d); }
    forall x ensures CallerOk(s', x) { CallerFrame(s, s', x); }
    forall x ensures QueueOk(s', x) { QueueFrame(s, s', x); }
    forall x ensures BatchOk(s', x) { if x != c { BatchFrame(s, s', x); } }
    forall x ensures LogOk(s', x) { assert LogOk(s, x); }
    forall x ensures IpiOk(s', x) { assert IpiOk(s, x); }
  }

  lemma UnlockBatch(s: State, c: Cpu)
    requires BatchOk(s, c) && (s.fl(c).UnlockSync? || s.fl(c).UnlockAsync?)
    ensures BatchOk(StepFlush(s, c), c) && Listed(s, s.fl(c).node, Current(c))
    ensures s.fl(c).UnlockSync? ==> s.fl(c).node in s.h.ran(c)
    ensures s.fl(c).UnlockAsync? ==> s.fl(c).node.csd.PerCpu?
  {
    ListFrame(s, StepFlush(s, c), s.h.batch(c), Batched(c));
  }

  lemma UnlockCaller(s: State, c: Cpu, x: Cpu)
    requires BatchOk(s, c) && CallerOk(s, x) && (s.fl(c).UnlockSync? || s.fl(c).UnlockAsync?)
    ensures CallerOk(StepFlush(s, c), x)
  {
    hide LinksForward;
    hide AllListed;
  }

  lemma UnlockKeeps(s: State, c: Cpu)
    requires Inv(s) && (s.fl(c).UnlockSync? || s.fl(c).UnlockAsync?)
    ensures Inv(StepFlush(s, c))
  {
    hide QueueOk;
    hide BatchOk;
    hide CallerOk;
    var s' := StepFlush(s, c);
    UnlockBatch(s, c);
    forall d ensures CsdOk(s', d) { assert CsdOk(s, d); }
    forall x ensures CallerOk(s', x) { UnlockCaller(s, c, x); }
    forall x ensures QueueOk(s', x) { QueueFrame(s, s', x); }
    forall x ensures BatchOk(s', x) { if x != c { BatchFrame(s, s', x); } }
    forall x ensures LogOk(s', x) { assert LogOk(s, x); }
    forall x ensures IpiOk(s', x) { assert IpiOk(s, x); }
  }

  // ---------------------------------------------------------------------------
  // Every csd is where it claims to be

  ghost predicate InList(ns: seq<Node>, d: Csd) {
    exists i :: 0 <= i < |ns| && ns[i].csd == d
  }

  ghost predicate Located(s: State, d: Csd) {
    match s.h.place(d)
    case Free => true
    case Prepared => true
    case Queued(c) => InList(s.h.queue(c), d)
    case Batched(c) => InList(s.h.batch(c), d)
    case Current(c) =>
      (s.fl(c).RunSync? || s.fl(c).UnlockSync? || s.fl(c).UnlockAsync?) && s.fl(c).node.csd == d
  }

  lemma InListGrows(ns: seq<Node>, n: Node)
    ensures forall d :: InList(ns + [n], d) <==> InList(ns, d) || d == n.csd
  {
    var ns' := ns + [n];
    assert forall i | 0 <= i < |ns| :: ns'[i] == ns[i];
    assert ns'[|ns|] == n;
  }

  lemma InListPops(ns: seq<Node>)
    requires ns != []
    ensures forall d :: InList(ns, d) <==> InList(ns[1..], d) || d == ns[0].csd
  {
    forall d ensures InList(ns, d) <==> InList(ns[1..], d) || d == ns[0].csd {
      if InList(ns[1..], d) {
        var i :| 0 <= i < |ns| - 1 && ns[1..][i].csd == d;
        assert ns[i + 1].csd == d;
      }
      if InList(ns, d) {
        var i :| 0 <= i < |ns| && ns[i].csd == d;
        assert i > 0 ==> ns[1..][i - 1].csd == d;
      }
    }
  }

  lemma CallersLocated(s: State, e: Event)
    requires Inv(s) && (forall d :: Located(s, d)) && !e.FlushStep?
    ensures forall d :: Located(Step(s, e), d)
  {
    hide QueueOk;
    hide LogOk;
    hide IpiOk;
    hide AllListed;
    hide InList;
    var s', c := Step(s, e), e.cpu;
    assert CallerOk(s, c) && BatchOk(s, c);
    if e.CallerStep? && s.pc(c).AddList? {
      var t := s.pc(c).target;
      InListGrows(s.h.queue(t), Node(s.pc(c).csd, s.pc(c).call, s.pc(c).id));
    }
    forall d ensures Located(s', d) { assert Located(s, d); }
  }

  lemma VisitLocated(s: State, c: Cpu)
    requires BatchOk(s, c) && (forall d :: Located(s, d)) && (s.fl(c).AtEntry?)
    ensures forall d :: Located(StepFlush(s, c), d)
  {
    hide LinksBack;
    hide LinksForward;
    hide InList;
    hide SetPlaces;
    var s', b := StepFlush(s, c), s.h.batch(c);
    if b != [] { InListPops(b); }
    forall d ensures Located(s', d) { assert Located(s, d); }
  }

  lemma UnlockLocated(s: State, c: Cpu)
    requires (forall d :: Located(s, d)) && (s.fl(c).UnlockSync? || s.fl(c).UnlockAsync?)
    ensures forall d :: Located(StepFlush(s, c), d)
  {
    hide InList;
    hide SetPlaces;
    forall d ensures Located(StepFlush(s, c), d) { assert Located(s, d); }
  }

  lemma RunLocated(s: State, c: Cpu)
    requires (forall d :: Located(s, d)) && (s.fl(c).Off? || s.fl(c).Reversing? || s.fl(c).RunSync? || s.fl(c).RunAsync?)
    ensures forall d :: Located(StepFlush(s, c), d)
  {
    hide InList;
    hide SetPlaces;
    forall d ensures Located(StepFlush(s, c), d) { assert Located(s, d); }
  }

  lemma TakeLocated(s: State, c: Cpu)
    requires BatchOk(s, c) && (forall d :: Located(s, d)) && s.fl(c).Started?
    ensures forall d :: Located(StepFlush(s, c), d)
  {
    hide LinksBack;
    hide LinksForward;
    hide InList;
    hide SetPlaces;
    TakenLocated(s, c);
    forall d ensures Located(StepFlush(s, c), d) { assert Located(s, d); }
  }

  lemma FlushLocated(s: State, c: Cpu)
    requires Inv(s) && (forall d :: Located(s, d))
    ensures forall d :: Located(StepFlush(s, c), d)
  {
    hide *;
    assert BatchOk(s, c) by { BatchHolds(s, c); }
    if s.fl(c).Started? {
      TakeLocated(s, c);
    } else if s.fl(c).AtEntry? {
      VisitLocated(s, c);
    } else if s.fl(c).UnlockSync? || s.fl(c).UnlockAsync? {
      UnlockLocated(s, c);
    } else {
      RunLocated(s, c);
    }
  }

  lemma BatchHolds(s: State, c: Cpu)
    requires Inv(s)
    ensures BatchOk(s, c)
  {
  }

  lemma TakenLocated(s: State, c: Cpu)
    requires s.fl(c).Started?
    ensures var s' := StepFlush(s, c);
            forall d :: s'.h.place(d) == if InList(s.h.queue(c), d) then Batched(c) else s.h.place(d)
    ensures forall d :: !InList([], d)
  {
  }

  // ---------------------------------------------------------------------------
  // No call is queued twice

  predicate Pending(pc: Pc) { pc.LockCsd? || pc.Exec? || pc.AddList? }

  /** A call that is not queued yet has a number of its own. */
  ghost predicate IdOk(s: State, c: Cpu) {
    Pending(s.pc(c)) ==> var id := s.pc(c).id; id < s.h.issued && s.h.caller(id) == c && s.h.slot(id) == None
  }

  ghost predicate SlotsOk(s: State, x: Cpu) {
    var a := s.h.added(x);
    forall i | 0 <= i < |a| :: s.h.slot(a[i].id) == Some((x, i))
  }

  ghost predicate IdsOk(s: State) {
    && (forall c :: IdOk(s, c))
    && (forall x :: SlotsOk(s, x))
    && (forall id | id >= s.h.issued :: s.h.slot(id) == None)
  }

  lemma IdsFrame(s: State, s': State)
    requires IdsOk(s) && s'.h == s.h.(place := s'.h.place, queue := s'.h.queue, batch := s'.h.batch, left := s'.h.left, ran := s'.h.ran)
    requires s'.pc == s.pc
    ensures IdsOk(s')
  {
    forall x ensures IdOk(s', x) { assert IdOk(s, x); }
    forall x ensures SlotsOk(s', x) { assert SlotsOk(s, x); }
  }

  lemma BeginIds(s: State, c: Cpu, t: Cpu, call: Call, wait: bool)
    requires IdsOk(s)
    ensures IdsOk(StepBegin(s, c, t, call, wait))
  {
    var s' := StepBegin(s, c, t, call, wait);
    forall x ensures IdOk(s', x) { assert IdOk(s, x); }
    forall x ensures SlotsOk(s', x) { assert SlotsOk(s, x); }
  }

  lemma CallerIds(s: State, c: Cpu)
    requires IdsOk(s)
    ensures IdsOk(StepCaller(s, c))
  {
    var s' := StepCaller(s, c);
    assert IdOk(s, c);
    forall x ensures IdOk(s', x) { assert IdOk(s, x); }
    if s.pc(c).AddList? {
      forall x ensures SlotsOk(s', x) { SlotsStep(s, c, x); }
    } else {
      forall x ensures SlotsOk(s', x) { assert SlotsOk(s, x); }
    }
  }

  lemma StepKeepsIds(s: State, e: Event)
    requires IdsOk(s)
    ensures IdsOk(Step(s, e))
  {
    hide IdsOk;
    hide StepCaller;
    hide StepBegin;
    hide SetPlaces;
    match e
    case Begin(c, t, call, wait) => BeginIds(s, c, t, call, wait);
    case CallerStep(c) => CallerIds(s, c);
    case Interrupt(_) => IdsFrame(s, Step(s, e));
    case FlushStep(_) => IdsFrame(s, Step(s, e));
  }

  lemma SlotsStep(s: State, c: Cpu, x: Cpu)
    requires IdsOk(s) && s.pc(c).AddList?
    ensures SlotsOk(StepCaller(s, c), x)
  {
    assert IdOk(s, c) && SlotsOk(s, x);
    var a := s.h.added(x);
    assert forall i | 0 <= i < |a| :: s.h.slot(a[i].id) == Some((x, i));
  }

  // ---------------------------------------------------------------------------
  // Whole runs

  ghost predicate Good(s: State) {
    Inv(s) && (forall d :: Located(s, d)) && IdsOk(s)
  }

  lemma StepKeepsInv(s: State, e: Event)
    requires Inv(s)
    ensures Inv(Step(s, e))
  {
    hide Inv;
    match e
    case Begin(c, t, call, wait) => BeginKeeps(s, c, t, call, wait);
    case Interrupt(c) => InterruptKeeps(s, c);
    case CallerStep(c) =>
      match s.pc(c) {
        case Idle =>
        case LockCsd(_, _, _) => LockKeeps(s, c);
        case Exec(_, _, _, _) => ExecKeeps(s, c);
        case AddList(_, _, _, _) => AddKeeps(s, c);
        case _ => ReturnKeeps(s, c);
      }
    case FlushStep(c) =>
      match s.fl(c) {
        case Off =>
        case Started => TakeKeeps(s, c);
        case Reversing(_, _) => ReverseKeeps(s, c);
        case AtEntry(_) => VisitKeeps(s, c);
        case RunSync(_, _) => RunKeeps(s, c);
        case RunAsync(_, _) => RunKeeps(s, c);
        case UnlockSync(_, _) => UnlockKeeps(s, c);
        case UnlockAsync(_, _) => UnlockKeeps(s, c);
      }
  }

  lemma {:induction false} RunIsGood(s: State, es: seq<Event>)
    requires Initial(s)
    ensures Good(Run(s, es))
    decreases |es|
  {
    hide Inv;
    hide IdsOk;
    hide Step;
    if es == [] {
      InitialIsGood(s);
    } else {
      var s1, e := Run(s, es[..|es| - 1]), es[|es| - 1];
      RunIsGood(s, es[..|es| - 1]);
      StepKeepsInv(s1, e);
      StepKeepsIds(s1, e);
      StepLocated(s1, e);
    }
  }

  lemma InitialIsGood(s: State)
    requires Initial(s)
    ensures Good(s)
  {
  }

  lemma StepLocated(s: State, e: Event)
    requires Inv(s) && forall d :: Located(s, d)
    ensures forall d :: Located(Step(s, e), d)
  {
    hide Inv;
    hide Located;
    if e.FlushStep? { FlushLocated(s, e.cpu); } else { CallersLocated(s, e); }
  }

  // ---------------------------------------------------------------------------
  // What the protocol promises, after every run

  /** A nonempty queue has an interrupt pending, about to be sent, or a handler that has not emptied it yet. */
  lemma NoLostWakeup(s: State, es: seq<Event>, c: Cpu)
    requires Initial(s) && Run(s, es).head(c).Some?
    ensures var s' := Run(s, es); s'.ipi(c) || s'.fl(c).Started? || exists x :: WillSend(s', x, c)
  {
    RunIsGood(s, es);
    assert IpiOk(Run(s, es), c);
  }

  /** The handler calls what was queued, with the values its callers stored, in the order of llist_add. */
  lemma RunsInOrder(s: State, es: seq<Event>, c: Cpu)
    requires Initial(s)
    ensures var s' := Run(s, es);
            && s'.h.ran(c) <= s'.h.added(c)
            && (s'.head(c).None? && s'.fl(c).Off? ==> s'.h.ran(c) == s'.h.added(c))
  {
    hide LinksBack;
    hide AllListed;
    RunIsGood(s, es);
    var s' := Run(s, es);
    assert LogOk(s', c) && BatchOk(s', c) && QueueOk(s', c);
  }

  /** No call is queued twice, on one queue or on two; so by RunsInOrder none is called twice. */
  lemma QueuedOnce(s: State, es: seq<Event>, x: Cpu, i: nat, y: Cpu, j: nat)
    requires Initial(s)
    requires var s' := Run(s, es); i < |s'.h.added(x)| && j < |s'.h.added(y)| && s'.h.added(x)[i].id == s'.h.added(y)[j].id
    ensures x == y && i == j
  {
    hide Inv;
    RunIsGood(s, es);
    var s' := Run(s, es);
    assert SlotsOk(s', x) && SlotsOk(s', y);
    assert s'.h.slot(s'.h.added(x)[i].id) == Some((x, i));
    assert s'.h.slot(s'.h.added(y)[j].id) == Some((y, j));
  }

  /** A caller that waits and succeeds returns only after its own call has run on its target. */
  lemma ReturnsAfterRun(s: State, es: seq<Event>, c: Cpu)
    requires Initial(s)
    requires var s' := Run(s, es);
             && s'.pc(c).Finish? && s'.pc(c).csd.Stack? && s'.pc(c).err == 0
             && Step(s', CallerStep(c)).pc(c).Idle?
    ensures var s' := Run(s, es); var pc := s'.pc(c);
            HasRun(s'.h, c, pc.target, Node(pc.csd, pc.call, pc.id))
  {
    hide QueueOk;
    hide BatchOk;
    RunIsGood(s, es);
    var s' := Run(s, es);
    assert CallerOk(s', c) && CsdOk(s', s'.pc(c).csd);
  }

  /** While it still waits, somebody on the way to its function has a step to take. */
  lemma WaiterIsServed(s: State, es: seq<Event>, c: Cpu)
    requires Initial(s)
    requires var s' := Run(s, es);
             s'.pc(c).Finish? && s'.pc(c).csd.Stack? && s'.pc(c).err == 0 && s'.lock(s'.pc(c).csd)
    ensures var s' := Run(s, es); var t := s'.pc(c).target;
            s'.fl(t) != Off || s'.ipi(t) || exists x :: WillSend(s', x, t)
  {
    hide LinksBack;
    hide LinksForward;
    RunIsGood(s, es);
    var s' := Run(s, es);
    var t, d := s'.pc(c).target, s'.pc(c).csd;
    assert CallerOk(s', c) && CsdOk(s', d) && Located(s', d);
    assert QueueOk(s', t) && BatchOk(s', t) && IpiOk(s', t);
  }

  /** How many steps the handler of CPU c has before it, if nothing is queued before it takes the queue. */
  function StepsLeft(s: State, c: Cpu): nat {
    var visits := 3 * |s.h.batch(c)| + 1;
    match s.fl(c)
    case Off => 0
    case Started => 4 * |s.h.queue(c)| + 3
    case Reversing(_, _) => s.h.left(c) + 1 + visits
    case AtEntry(_) => visits
    case RunSync(_, _) => visits + 2
    case UnlockSync(_, _) => visits + 1
    case UnlockAsync(_, _) => visits + 2
    case RunAsync(_, _) => visits + 1
  }

  lemma FlushCounts(s: State, c: Cpu)
    requires Inv(s) && s.fl(c) != Off
    ensures StepsLeft(StepFlush(s, c), c) == StepsLeft(s, c) - 1 && StepFlush(s, c).fl(c) != Started
  {
    hide LinksBack;
    hide LinksForward;
    hide QueueOk;
    hide CallerOk;
    hide AllListed;
    hide SetPlaces;
    hide Set;
    assert BatchOk(s, c);
  }

  /** A handler that is not off is never stuck: each of its steps is one less to take. */
  lemma HandlerMoves(s: State, es: seq<Event>, c: Cpu)
    requires Initial(s) && Run(s, es).fl(c) != Off
    ensures var s' := Run(s, es); StepsLeft(Step(s', FlushStep(c)), c) == StepsLeft(s', c) - 1
  {
    hide Inv;
    hide Run;
    hide StepsLeft;
    RunIsGood(s, es);
    FlushCounts(Run(s, es), c);
  }

  /** How often the handler of CPU c gets its turn. */
  ghost function Turns(es: seq<Event>, c: Cpu): nat {
    if es == [] then 0 else Turns(es[..|es| - 1], c) + if es[|es| - 1] == FlushStep(c) then 1 else 0
  }

  /** Busy with what it has taken. */
  predicate Busy(fl: Flush) { fl != Off && fl != Started }

  lemma OthersDoNotCount(s: State, c: Cpu, e: Event)
    requires Busy(s.fl(c)) && e != FlushStep(c)
    ensures StepsLeft(Step(s, e), c) == StepsLeft(s, c) && Step(s, e).fl(c) == s.fl(c)
  {
    hide SetPlaces;
    hide Set;
  }

  lemma {:induction false} BusyCounts(s: State, c: Cpu, more: seq<Event>)
    requires Inv(s) && Busy(s.fl(c)) && forall k: nat | k <= |more| :: Run(s, more[..k]).fl(c) != Off
    ensures var s' := Run(s, more); Inv(s') && Busy(s'.fl(c)) && StepsLeft(s', c) + Turns(more, c) == StepsLeft(s, c)
    decreases |more|
  {
    hide Inv;
    hide Step;
    hide StepsLeft;
    assert more[..|more|] == more;
    if more != [] {
      var before, e := more[..|more| - 1], more[|more| - 1];
      forall k: nat | k <= |before| ensures Run(s, before[..k]).fl(c) != Off { assert before[..k] == more[..k]; }
      BusyCounts(s, c, before);
      var s1 := Run(s, before);
      StepKeepsInv(s1, e);
      if e == FlushStep(c) { StepOwn(s1, c); } else { OthersDoNotCount(s1, c, e); }
    }
  }

  lemma StepOwn(s: State, c: Cpu)
    requires Inv(s) && s.fl(c) != Off
    ensures StepsLeft(Step(s, FlushStep(c)), c) == StepsLeft(s, c) - 1 && Step(s, FlushStep(c)).fl(c) != Started
  {
    hide Inv;
    hide StepsLeft;
    FlushCounts(s, c);
  }

  /** Whatever else happens, a handler that has taken its queue is done after that many turns. */
  lemma HandlerFinishes(s: State, es: seq<Event>, c: Cpu, more: seq<Event>)
    requires Initial(s) && Busy(Run(s, es).fl(c)) && Turns(more, c) >= StepsLeft(Run(s, es), c)
    ensures exists k: nat :: k <= |more| && Run(Run(s, es), more[..k]).fl(c) == Off
  {
    hide Inv;
    hide Run;
    RunIsGood(s, es);
    var s' := Run(s, es);
    if forall k: nat | k <= |more| :: Run(s', more[..k]).fl(c) != Off { BusyCounts(s', c, more); }
  }

  /** No step outside the handler of CPU c, re-queueing included, touches what the handler has still to visit. */
  lemma TraversalUndisturbed(s: State, es: seq<Event>, c: Cpu, e: Event, k: nat)
    requires Initial(s) && e != FlushStep(c)
    requires var s' := Run(s, es); s'.fl(c) != Off && k < |s'.h.batch(c)|
    ensures var s' := Run(s, es); var s'' := Step(s', e); var d := s'.h.batch(c)[k].csd;
            && s''.fl(c) == s'.fl(c) && s''.h.batch(c) == s'.h.batch(c)
            && s''.link(d) == s'.link(d) && s''.call(d) == s'.call(d) && s''.lock(d)
  {
    hide Inv;
    hide Run;
    hide IdsOk;
    RunIsGood(s, es);
    var s' := Run(s, es);
    BatchIsBatched(s', c, k);
    if e.FlushStep? {
      FlushLeaves(s', e.cpu, c, s'.h.batch(c)[k].csd);
    } else {
      CallerLeaves(s', e, c, s'.h.batch(c)[k].csd);
    }
  }

  lemma BatchIsBatched(s: State, c: Cpu, k: nat)
    requires Inv(s) && k < |s.h.batch(c)|
    ensures s.h.place(s.h.batch(c)[k].csd) == Batched(c)
  {
    assert BatchOk(s, c) && Listed(s, s.h.batch(c)[k], Batched(c));
  }

  lemma FlushLeaves(s: State, x: Cpu, c: Cpu, d: Csd)
    requires Inv(s) && x != c && s.h.place(d) == Batched(c)
    ensures var s' := StepFlush(s, x); s'.link(d) == s.link(d) && s'.call(d) == s.call(d) && s'.lock(d)
  {
    hide QueueOk;
    hide CallerOk;
    hide LinksBack;
    hide LinksForward;
    hide SetPlaces;
    assert BatchOk(s, x) && CsdOk(s, d);
    var b, k := s.h.batch(x), s.h.left(x);
    assert s.fl(x).Reversing? && k > 0 ==> Listed(s, b[k - 1], Batched(x));
  }

  lemma CallerLeaves(s: State, e: Event, c: Cpu, d: Csd)
    requires Inv(s) && !e.FlushStep? && s.h.place(d) == Batched(c)
    ensures var s' := Step(s, e); s'.link(d) == s.link(d) && s'.call(d) == s.call(d) && s'.lock(d)
  {
    hide QueueOk;
    hide BatchOk;
    assert CallerOk(s, e.cpu) && CsdOk(s, d);
  }

  /** csd_unlock is only ever applied to a locked csd, so its warning never fires. */
  lemma UnlocksOnlyLocked(s: State, es: seq<Event>, c: Cpu)
    requires Initial(s)
    ensures var s' := Run(s, es);
            && (s'.pc(c).Exec? ==> s'.lock(s'.pc(c).csd))
            && (s'.fl(c).UnlockSync? || s'.fl(c).UnlockAsync? ==> s'.lock(s'.fl(c).node.csd))
  {
    hide AllListed;
    RunIsGood(s, es);
    var s' := Run(s, es);
    assert CallerOk(s', c) && BatchOk(s', c);
    if s'.pc(c).Exec? { assert CsdOk(s', s'.pc(c).csd); }
    if s'.fl(c).UnlockSync? || s'.fl(c).UnlockAsync? { assert CsdOk(s', s'.fl(c).node.csd); }
  }
}
