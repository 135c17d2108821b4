/**
 The edge interrupt flow of kernel/core/irq/chip.c and handle.c as a state machine.

 One interrupt descriptor, any number of CPUs.  Each CPU may take an edge of the line (handle_edge_irq),
 or enable, disable or change the action of the line under the descriptor's lock.  Every test or write of
 the descriptor is one step; while the handlers run the lock is free.  A step that is not enabled does
 nothing.  Wakeup sources and polling are not part of the model, so irq_may_run tests the in-progress bit.
 */
module EdgeIrq {
  import opened Options

  type Cpu = nat

  /** Which optional callbacks the interrupt chip has. */
  datatype Chip = Chip(mask: bool, maskAck: bool, unmask: bool, enable: bool, disable: bool)

  /** IRQS_PENDING, the in-progress, disabled and masked bits, and whether desc->action is not NULL. */
  datatype Desc = Desc(pending: bool, inProgress: bool, disabled: bool, masked: bool, action: bool)

  /** What the holder of the lock is about to do. */
  datatype Pos =
    // handle_edge_irq
    | MayRun          // irq_may_run
    | CheckEnabled    // disabled, or no action
    | SetPending
    | MaskAck
    | Ack
    | LoopAction      // head of the loop: no action any more?
    | MaskNoAction
    | LoopPending     // did another edge arrive meanwhile?
    | Reenable        // unmask unless disabled
    | ClearPending    // handle_irq_event
    | SetInProgress
    | DropLock
    | ClearInProgress // ... after the handlers
    | LoopTest
    | Unlock
    // irq_enable
    | EnTest
    | EnUnmaskOnly    // it was enabled already
    | EnClear
    | EnChip          // the chip's irq_enable
    | EnUnmask
    // __irq_disable
    | DisTest(mask: bool)
    | DisSet(mask: bool)
    | DisChip         // the chip's irq_disable
    | DisMask
    // installing or removing the action
    | ActWrite(present: bool)

  /** Outside, waiting for the lock, inside it, or running the handlers. */
  datatype Pc = Idle | Spins(next: Pos) | Holds(at: Pos) | Running

  datatype State = State(
    chip: Chip,
    d: Desc,
    lock: Option<Cpu>,
    pc: Cpu -> Pc,
    starts: nat,          // history: how often handle_irq_event was entered
    runner: Option<Cpu>)  // history: the CPU that set the in-progress bit

  datatype Event = Edge(cpu: Cpu) | Enable(cpu: Cpu) | Disable(cpu: Cpu, mask: bool)
                 | SetAction(cpu: Cpu, present: bool) | Go(cpu: Cpu)

  /** mask_irq */
  function MaskIrq(chip: Chip, d: Desc): Desc { if !d.masked && chip.mask then d.(masked := true) else d }

  /** unmask_irq */
  function UnmaskIrq(chip: Chip, d: Desc): Desc { if d.masked && chip.unmask then d.(masked := false) else d }

  /** mask_ack_irq */
  function MaskAckIrq(chip: Chip, d: Desc): Desc { if chip.maskAck then d.(masked := true) else MaskIrq(chip, d) }

  /** What a step inside the lock writes to the descriptor. */
  function Act(chip: Chip, d: Desc, at: Pos): Desc {
    match at
    case SetPending => d.(pending := true)
    case MaskAck => MaskAckIrq(chip, d)
    case MaskNoAction => MaskIrq(chip, d)
    case Reenable => if !d.disabled then UnmaskIrq(chip, d) else d
    case ClearPending => d.(pending := false)
    case SetInProgress => d.(inProgress := true)
    case ClearInProgress => d.(inProgress := false)
    case EnUnmaskOnly => UnmaskIrq(chip, d)
    case EnClear => d.(disabled := false)
    case EnChip => d.(masked := false)
    case EnUnmask => UnmaskIrq(chip, d)
    case DisSet(_) => d.(disabled := true)
    case DisChip => d.(masked := true)
    case DisMask => MaskIrq(chip, d)
    case ActWrite(p) => d.(action := p)
    case _ => d
  }

  /** And where it leads. */
  function Next(chip: Chip, d: Desc, at: Pos): Pc {
    match at
    case MayRun => Holds(if d.inProgress then SetPending else CheckEnabled)
    case CheckEnabled => Holds(if d.disabled || !d.action then SetPending else Ack)
    case SetPending => Holds(MaskAck)
    case MaskAck => Holds(Unlock)
    case Ack => Holds(LoopAction)
    case LoopAction => Holds(if d.action then LoopPending else MaskNoAction)
    case MaskNoAction => Holds(Unlock)
    case LoopPending => Holds(if d.pending then Reenable else ClearPending)
    case Reenable => Holds(ClearPending)
    case ClearPending => Holds(SetInProgress)
    case SetInProgress => Holds(DropLock)
    case DropLock => Running
    case ClearInProgress => Holds(LoopTest)
    case LoopTest => Holds(if d.pending && !d.disabled then LoopAction else Unlock)
    case Unlock => Idle
    case EnTest => Holds(if d.disabled then EnClear else EnUnmaskOnly)
    case EnUnmaskOnly => Holds(Unlock)
    case EnClear => Holds(if chip.enable then EnChip else EnUnmask)
    case EnChip => Holds(Unlock)
    case EnUnmask => Holds(Unlock)
    case DisTest(m) => Holds(if !d.disabled then DisSet(m) else if m then DisMask else Unlock)
    case DisSet(m) => Holds(if chip.disable then DisChip else if m then DisMask else Unlock)
    case DisChip => Holds(Unlock)
    case DisMask => Holds(Unlock)
    case ActWrite(_) => Holds(Unlock)
  }

  function At(s: State, c: Cpu, pc: Pc): State { s.(pc := (x: Cpu) => if x == c then pc else s.pc(x)) }

  /** A step inside the lock. */
  function Locked(s: State, c: Cpu, at: Pos): State {
    var pc := Next(s.chip, s.d, at);
    At(s.(d := Act(s.chip, s.d, at), lock := if pc.Holds? then s.lock else None,
          starts := s.starts + if at.ClearPending? then 1 else 0,
          runner := if at.SetInProgress? then Some(c) else if at.ClearInProgress? then None else s.runner), c, pc)
  }

  /** The next step of CPU c. */
  function Proceed(s: State, c: Cpu): State {
    match s.pc(c)
    case Idle => s
    case Spins(next) => if s.lock.None? then At(s.(lock := Some(c)), c, Holds(next)) else s
    case Holds(at) => Locked(s, c, at)
    case Running => At(s, c, Spins(ClearInProgress))
  }

  /** What an idle CPU starts with. */
  function First(e: Event): Pos {
    match e
    case Edge(_) => MayRun
    case Enable(_) => EnTest
    case Disable(_, m) => DisTest(m)
    case SetAction(_, p) => ActWrite(p)
    case Go(_) => Unlock
  }

  function Step(s: State, e: Event): State {
    if e.Go? then Proceed(s, e.cpu) else if s.pc(e.cpu) != Idle then s else At(s, e.cpu, Spins(First(e)))
  }

  ghost function Run(s: State, es: seq<Event>): State
    decreases |es|
  {
    if es == [] then s else Step(Run(s, es[..|es| - 1]), es[|es| - 1])
  }

  /** A descriptor as desc_set_defaults leaves it: disabled and masked, without an action. */
  ghost predicate Initial(s: State) {
    s.lock == None && s.d == Desc(false, false, true, true, false) && s.runner == None && forall c :: s.pc(c) == Idle
  }

  /** Such a state, for any chip. */
  function Fresh(chip: Chip): (s: State)
    ensures Initial(s) && s.chip == chip
  {
    State(chip, Desc(false, false, true, true, false), None, _ => Idle, 0, None)
  }

  // ---------------------------------------------------------------------------
  // The lock and the in-progress bit

  /** What a CPU may wait for the lock to do. */
  predicate Opening(at: Pos) { at.MayRun? || at.ClearInProgress? || at.EnTest? || at.DisTest? || at.ActWrite? }

  /** From setting the in-progress bit until clearing it. */
  predicate Handling(pc: Pc) {
    pc.Running? || pc == Holds(DropLock) || pc == Spins(ClearInProgress) || pc == Holds(ClearInProgress)
  }

  /** Past the checks and on the way to the handlers. */
  predicate Starting(at: Pos) {
    at.Ack? || at.LoopAction? || at.LoopPending? || at.Reenable? || at.ClearPending? || at.SetInProgress?
  }

  /** What the holder of the lock knows at each point. */
  predicate HolderOk(chip: Chip, d: Desc, at: Pos) {
    match at
    case CheckEnabled => !d.inProgress
    case SetPending => d.inProgress || d.disabled || !d.action
    case MaskAck => d.pending
    case Ack => !d.inProgress && !d.disabled && d.action
    case LoopAction => !d.inProgress && !d.disabled && (d.action || d.pending)
    case MaskNoAction => d.pending
    case LoopPending => !d.inProgress && !d.disabled && d.action
    case Reenable => !d.inProgress && !d.disabled && d.action && d.pending
    case ClearPending => !d.inProgress && !d.disabled && d.action
    case SetInProgress => !d.inProgress && !d.disabled && d.action
    case LoopTest => !d.inProgress
    case EnUnmaskOnly => !d.disabled
    case EnClear => d.disabled
    case EnChip => !d.disabled && chip.enable
    case EnUnmask => !d.disabled && !chip.enable
    case DisChip => d.disabled
    case DisMask => d.disabled
    case _ => true
  }

  /** The lock belongs to the CPU inside it, and the in-progress bit to the CPU whose handlers run. */
  ghost predicate CpuOk(s: State, c: Cpu) {
    && (s.pc(c).Holds? <==> s.lock == Some(c))
    && (Handling(s.pc(c)) <==> s.runner == Some(c))
    && (s.pc(c).Holds? ==> HolderOk(s.chip, s.d, s.pc(c).at))
    && (s.pc(c).Spins? ==> Opening(s.pc(c).next))
  }

  ghost predicate Inv(s: State) {
    (s.d.inProgress <==> s.runner.Some?) && forall c: Cpu :: CpuOk(s, c)
  }

  /** A step inside the lock finds at its end what the next one relies on. */
  lemma HolderStep(chip: Chip, d: Desc, at: Pos)
    requires HolderOk(chip, d, at)
    ensures var pc := Next(chip, d, at); !pc.Spins? && (pc.Holds? ==> HolderOk(chip, Act(chip, d, at), pc.at))
  {
  }

  /** So does taking the lock. */
  lemma OpeningOk(chip: Chip, d: Desc, at: Pos)
    requires Opening(at)
    ensures HolderOk(chip, d, at)
  {
  }

  lemma HandlingStep(chip: Chip, d: Desc, at: Pos)
    requires HolderOk(chip, d, at)
    ensures Handling(Next(chip, d, at)) <==> at.SetInProgress? || at.DropLock?
    ensures Act(chip, d, at).inProgress == (if at.SetInProgress? then true else if at.ClearInProgress? then false else d.inProgress)
    ensures at.SetInProgress? ==> !d.inProgress
  {
  }

  lemma LockedKeepsInv(s: State, c: Cpu)
    requires Inv(s) && s.pc(c).Holds?
    ensures Inv(Proceed(s, c))
  {
    hide Act;
    hide Next;
    hide HolderOk;
    var s', at := Proceed(s, c), s.pc(c).at;
    assert CpuOk(s, c);
    HolderStep(s.chip, s.d, at);
    HandlingStep(s.chip, s.d, at);
    forall x: Cpu ensures CpuOk(s', x) { assert CpuOk(s, x); }
  }

  lemma UnlockedKeepsInv(s: State, c: Cpu)
    requires Inv(s) && !s.pc(c).Holds?
    ensures Inv(Proceed(s, c))
  {
    hide HolderOk;
    var s' := Proceed(s, c);
    assert CpuOk(s, c);
    forall x: Cpu ensures CpuOk(s', x) {
      assert CpuOk(s, x);
      if s.pc(c).Spins? { OpeningOk(s.chip, s.d, s.pc(c).next); }
    }
  }

  lemma StepKeepsInv(s: State, e: Event)
    requires Inv(s)
    ensures Inv(Step(s, e)) && Step(s, e).chip == s.chip && s.starts <= Step(s, e).starts
  {
    hide HolderOk;
    hide Act;
    hide Next;
    if !e.Go? {
      var s' := Step(s, e);
      forall x: Cpu ensures CpuOk(s', x) { assert CpuOk(s, x); }
    } else if s.pc(e.cpu).Holds? {
      LockedKeepsInv(s, e.cpu);
    } else {
      UnlockedKeepsInv(s, e.cpu);
    }
  }

  lemma {:induction false} RunKeepsInv(s: State, es: seq<Event>)
    requires Initial(s)
    ensures Inv(Run(s, es)) && Run(s, es).chip == s.chip
    decreases |es|
  {
    hide Step;
    if es != [] {
      RunKeepsInv(s, es[..|es| - 1]);
      StepKeepsInv(Run(s, es[..|es| - 1]), es[|es| - 1]);
    }
  }

  /** The handlers of the descriptor never run on two CPUs at once. */
  lemma HandlersNeverOverlap(s: State, es: seq<Event>, c: Cpu, x: Cpu)
    requires Initial(s) && Run(s, es).pc(c).Running? && Run(s, es).pc(x).Running?
    ensures c == x
  {
    hide Run;
    RunKeepsInv(s, es);
    assert CpuOk(Run(s, es), c) && CpuOk(Run(s, es), x);
  }

  /** Handlers are started only on an enabled line with an action, and not while others run. */
  lemma StartsAreRight(s: State, es: seq<Event>, e: Event)
    requires Initial(s) && Step(Run(s, es), e).starts != Run(s, es).starts
    ensures var s' := Run(s, es); !s'.d.disabled && s'.d.action && !s'.d.inProgress && Step(s', e).starts == s'.starts + 1
  {
    hide Run;
    hide Act;
    hide Next;
    hide HolderOk;
    RunKeepsInv(s, es);
    var s' := Run(s, es);
    assert CpuOk(s', e.cpu);
    if s'.pc(e.cpu).Holds? { StartNeeds(s'.chip, s'.d, s'.pc(e.cpu).at); }
  }

  /** Where the holder of the lock is, if there is one. */
  function Inside(s: State): Option<Pos> {
    if s.lock.Some? && s.pc(s.lock.value).Holds? then Some(s.pc(s.lock.value).at) else None
  }

  /** How a step changes that. */
  lemma InsideSteps(s: State, e: Event)
    requires Inv(s)
    ensures var s' := Step(s, e);
            || (s'.d == s.d && Inside(s') == Inside(s))
            || (s'.d == s.d && Inside(s).None? && Inside(s').Some? && Opening(Inside(s').value))
            || (Inside(s).Some? && HolderOk(s.chip, s.d, Inside(s).value)
                && s'.d == Act(s.chip, s.d, Inside(s).value) && Inside(s') == AtPc(Next(s.chip, s.d, Inside(s).value)))
  {
    hide HolderOk;
    hide Act;
    hide Next;
    assert CpuOk(s, e.cpu);
    assert s.lock.Some? ==> CpuOk(s, s.lock.value);
  }

  function AtPc(pc: Pc): Option<Pos> { if pc.Holds? then Some(pc.at) else None }

  // ---------------------------------------------------------------------------
  // Masking

  /** The chip can undo every masking that the flow may do. */
  predicate Restores(chip: Chip) {
    chip.unmask || (chip.enable && !chip.mask && !chip.maskAck)
  }

  /** irq_enable has cleared the disabled bit and is about to unmask. */
  predicate Enabling(s: State) { Inside(s) == Some(EnChip) || Inside(s) == Some(EnUnmask) }

  predicate MaskOk(chip: Chip, d: Desc, at: Option<Pos>) {
    && (d.masked ==> d.disabled || at == Some(EnChip) || at == Some(EnUnmask) || (d.pending && chip.unmask))
    && (d.masked ==> at != Some(ClearPending))
  }

  lemma HolderKeepsMask(chip: Chip, d: Desc, at: Pos)
    requires HolderOk(chip, d, at) && Restores(chip) && MaskOk(chip, d, Some(at))
    ensures MaskOk(chip, Act(chip, d, at), AtPc(Next(chip, d, at)))
  {
  }

  lemma {:induction false} RunKeepsMask(s: State, es: seq<Event>)
    requires Initial(s) && Restores(s.chip)
    ensures var s' := Run(s, es); MaskOk(s'.chip, s'.d, Inside(s'))
    decreases |es|
  {
    hide Step;
    hide Inv;
    hide Act;
    hide Next;
    hide HolderOk;
    if es != [] {
      var s1 := Run(s, es[..|es| - 1]);
      RunKeepsMask(s, es[..|es| - 1]);
      RunKeepsInv(s, es[..|es| - 1]);
      StepKeepsInv(s1, es[|es| - 1]);
      InsideSteps(s1, es[|es| - 1]);
      if Inside(s1).Some? && HolderOk(s1.chip, s1.d, Inside(s1).value) {
        HolderKeepsMask(s1.chip, s1.d, Inside(s1).value);
      }
    }
  }

  /** With a chip that restores, a masked line is pending or disabled, except inside irq_enable. */
  lemma MaskedIsExplained(s: State, es: seq<Event>)
    requires Initial(s) && Restores(s.chip)
    ensures var s' := Run(s, es); s'.d.masked ==> s'.d.pending || s'.d.disabled || Enabling(s')
  {
    hide Run;
    RunKeepsMask(s, es);
  }

  // ---------------------------------------------------------------------------
  // Edges

  /** The CPU has taken an edge and has neither recorded it nor started the handlers. */
  predicate Entering(pc: Pc) {
    || pc == Spins(MayRun)
    || (pc.Holds? && (pc.at.MayRun? || pc.at.CheckEnabled? || pc.at.SetPending? || (Starting(pc.at) && !pc.at.SetInProgress?)))
  }

  /** A step inside the lock loses neither a recorded edge nor one on its way in. */
  lemma HolderRemembers(chip: Chip, d: Desc, at: Pos)
    requires HolderOk(chip, d, at)
    ensures at.ClearPending? || (d.pending ==> Act(chip, d, at).pending)
    ensures Entering(Holds(at)) && !Entering(Next(chip, d, at)) ==> at.ClearPending? || Act(chip, d, at).pending
  {
  }

  /** An edge that CPU c took when n runs had started is not forgotten. */
  ghost predicate Remembered(s: State, c: Cpu, n: nat) {
    s.starts >= n && (Entering(s.pc(c)) || s.starts > n || s.d.pending)
  }

  lemma StepRemembers(s: State, e: Event, c: Cpu, n: nat)
    requires Inv(s) && Remembered(s, c, n)
    ensures Remembered(Step(s, e), c, n)
  {
    hide Act;
    hide Next;
    hide HolderOk;
    assert CpuOk(s, e.cpu);
    if e.Go? && s.pc(e.cpu).Holds? { HolderRemembers(s.chip, s.d, s.pc(e.cpu).at); }
  }

  lemma {:induction false} RunRemembers(s: State, es: seq<Event>, c: Cpu, n: nat)
    requires Inv(s) && Remembered(s, c, n)
    ensures Inv(Run(s, es)) && Remembered(Run(s, es), c, n)
    decreases |es|
  {
    hide Step;
    hide Inv;
    hide Remembered;
    if es != [] {
      RunRemembers(s, es[..|es| - 1], c, n);
      StepRemembers(Run(s, es[..|es| - 1]), es[|es| - 1], c, n);
      StepKeepsInv(Run(s, es[..|es| - 1]), es[|es| - 1]);
    }
  }

  lemma {:induction false} RunConcat(s: State, a: seq<Event>, b: seq<Event>)
    ensures Run(s, a + b) == Run(Run(s, a), b)
    decreases |b|
  {
    hide Step;
    if b == [] {
      assert a + b == a;
    } else {
      RunConcat(s, a, b[..|b| - 1]);
      assert (a + b)[..|a + b| - 1] == a + b[..|b| - 1];
    }
  }

  lemma RunOne(s: State, es: seq<Event>, e: Event)
    ensures Run(s, es + [e]) == Step(Run(s, es), e)
  {
    hide Step;
    assert (es + [e])[..|es|] == es;
  }

  /** After an edge, the CPU that took it is still entering, a run of the handlers has started since, or PENDING is set. */
  lemma EdgeNotLost(s: State, before: seq<Event>, c: Cpu, after: seq<Event>)
    requires Initial(s) && Run(s, before).pc(c).Idle?
    ensures var s1, s2 := Run(s, before), Run(s, before + [Edge(c)] + after);
            Entering(s2.pc(c)) || s2.starts > s1.starts || s2.d.pending
  {
    hide Inv;
    hide Run;
    var s1 := Run(s, before);
    RunKeepsInv(s, before);
    RunOne(s, before, Edge(c));
    StepKeepsInv(s1, Edge(c));
    RunRemembers(Step(s1, Edge(c)), after, c, s1.starts);
    RunConcat(s, before + [Edge(c)], after);
  }

  // ---------------------------------------------------------------------------
  // A line that stays enabled

  predicate Undisturbing(e: Event) { !e.Disable? && !(e.SetAction? && !e.present) }

  predicate Quieting(at: Pos) { at.DisTest? || at.DisSet? || at == ActWrite(false) }

  predicate Bold(pc: Pc) { (pc.Spins? ==> !Quieting(pc.next)) && (pc.Holds? ==> !Quieting(pc.at)) }

  /** The line is enabled with an action, and nobody is about to change that. */
  ghost predicate Serving(s: State) { !s.d.disabled && s.d.action && forall c: Cpu :: Bold(s.pc(c)) }

  /** A pending edge has a CPU that will see it. */
  predicate Covered(d: Desc, at: Option<Pos>) {
    d.pending ==> d.inProgress || (at.Some? && (Starting(at.value) || at.value.LoopTest?))
  }

  /** An edge has been taken and is not yet past the tests. */
  predicate Testing(pc: Pc) { pc == Spins(MayRun) || pc == Holds(MayRun) || pc == Holds(CheckEnabled) }

  lemma HolderServes(chip: Chip, d: Desc, at: Pos)
    requires !d.disabled && d.action && !Quieting(at)
    ensures var d' := Act(chip, d, at); !d'.disabled && d'.action && Bold(Next(chip, d, at))
  {
  }

  lemma StepServes(s: State, e: Event)
    requires Inv(s) && Serving(s) && Undisturbing(e)
    ensures Serving(Step(s, e))
  {
    hide Act;
    hide Next;
    hide HolderOk;
    var s' := Step(s, e);
    assert CpuOk(s, e.cpu) && Bold(s.pc(e.cpu));
    if e.Go? && s.pc(e.cpu).Holds? { HolderServes(s.chip, s.d, s.pc(e.cpu).at); }
    forall x: Cpu ensures Bold(s'.pc(x)) { assert Bold(s.pc(x)); }
  }

  lemma HolderCovers(chip: Chip, d: Desc, at: Pos)
    requires !d.disabled && d.action && HolderOk(chip, d, at) && !Quieting(at)
    ensures Covered(d, Some(at)) || at.MayRun? || at.CheckEnabled? ==>
              Covered(Act(chip, d, at), AtPc(Next(chip, d, at))) || Next(chip, d, at) == Holds(CheckEnabled)
    ensures Covered(d, Some(at)) ==> Covered(Act(chip, d, at), AtPc(Next(chip, d, at)))
  {
  }

  lemma StepCovers(s: State, e: Event)
    requires Inv(s) && Serving(s) && Covered(s.d, Inside(s))
    ensures Covered(Step(s, e).d, Inside(Step(s, e)))
  {
    hide Act;
    hide Next;
    hide HolderOk;
    hide Step;
    InsideSteps(s, e);
    if s.lock.Some? { assert CpuOk(s, s.lock.value) && Bold(s.pc(s.lock.value)); }
    if Inside(s).Some? && HolderOk(s.chip, s.d, Inside(s).value) { HolderCovers(s.chip, s.d, Inside(s).value); }
  }

  /** An edge that has just been taken covers a pending one from before as soon as it is past the tests. */
  lemma TestingCovers(s: State, e: Event, c: Cpu)
    requires Inv(s) && Serving(s) && Testing(s.pc(c))
    ensures Testing(Step(s, e).pc(c)) || Covered(Step(s, e).d, Inside(Step(s, e)))
  {
    hide Act;
    hide Next;
    hide HolderOk;
    assert CpuOk(s, c) && Bold(s.pc(c));
    if e == Go(c) && s.pc(c).Holds? { HolderCovers(s.chip, s.d, s.pc(c).at); }
  }

  lemma {:induction false} RunServes(s: State, es: seq<Event>, c: Cpu)
    requires Inv(s) && Serving(s) && (Covered(s.d, Inside(s)) || Testing(s.pc(c)))
    requires forall k | 0 <= k < |es| :: Undisturbing(es[k])
    ensures var s' := Run(s, es); Inv(s') && Serving(s') && (Covered(s'.d, Inside(s')) || Testing(s'.pc(c)))
    decreases |es|
  {
    hide Step;
    hide Inv;
    hide Serving;
    hide Covered;
    hide Testing;
    if es != [] {
      var s1, e := Run(s, es[..|es| - 1]), es[|es| - 1];
      RunServes(s, es[..|es| - 1], c);
      StepServes(s1, e);
      StepKeepsInv(s1, e);
      if Covered(s1.d, Inside(s1)) { StepCovers(s1, e); } else { TestingCovers(s1, e, c); }
    }
  }

  /**
   On a line that stays enabled every edge is served: once its CPU has left handle_edge_irq and no handlers run,
   a run has started since the edge, and the line is neither pending, not even from a time when it was disabled, nor,
   with a chip that restores, masked.
   */
  lemma EveryEdgeServed(s: State, before: seq<Event>, c: Cpu, after: seq<Event>)
    requires Initial(s) && Run(s, before).pc(c).Idle? && Serving(Run(s, before))
    requires forall k | 0 <= k < |after| :: Undisturbing(after[k])
    requires var s2 := Run(s, before + [Edge(c)] + after); s2.lock == None && !s2.d.inProgress && s2.pc(c).Idle?
    ensures var s1, s2 := Run(s, before), Run(s, before + [Edge(c)] + after);
            && s2.starts > s1.starts && !s2.d.pending
            && (Restores(s.chip) ==> !s2.d.masked)
  {
    hide Inv;
    hide Run;
    hide Proceed;
    var s1, s2 := Run(s, before), Run(s, before + [Edge(c)] + after);
    EdgeNotLost(s, before, c, after);
    RunKeepsInv(s, before);
    StepKeepsInv(s1, Edge(c));
    StepServes(s1, Edge(c));
    RunServes(Step(s1, Edge(c)), after, c);
    RunOne(s, before, Edge(c));
    RunConcat(s, before + [Edge(c)], after);
    if Restores(s.chip) { RunKeepsMask(s, before + [Edge(c)] + after); }
  }

  // ---------------------------------------------------------------------------
  // What is done under the lock, as a whole

  /** The descriptor and the CPU after n steps of the holder of the lock, or fewer if it leaves before. */
  function Section(chip: Chip, d: Desc, at: Pos, n: nat): (Desc, Pc)
    decreases n
  {
    if n == 0 then (d, Holds(at))
    else
      var pc := Next(chip, d, at);
      if pc.Holds? then Section(chip, Act(chip, d, at), pc.at, n - 1) else (Act(chip, d, at), pc)
  }

  /** One step of it. */
  lemma One(chip: Chip, d: Desc, at: Pos, n: nat)
    requires n > 0
    ensures Section(chip, d, at, n) ==
            match Next(chip, d, at) case Holds(at') => Section(chip, Act(chip, d, at), at', n - 1) case pc => (Act(chip, d, at), pc)
  {
    hide Act;
    hide Next;
  }

  lemma MaskFacts(chip: Chip, d: Desc)
    ensures MaskIrq(chip, d) == d.(masked := d.masked || chip.mask)
    ensures UnmaskIrq(chip, d) == d.(masked := d.masked && !chip.unmask)
    ensures MaskAckIrq(chip, d) == d.(masked := d.masked || chip.mask || chip.maskAck)
  {
  }

  /** handle_edge_irq up to the handlers: an edge that cannot be handled now is recorded and the line masked. */
  lemma EdgeSection(chip: Chip, d: Desc)
    ensures Section(chip, d, MayRun, 9) ==
            if d.inProgress || d.disabled || !d.action then
              (d.(pending := true, masked := d.masked || chip.mask || chip.maskAck), Idle)
            else
              (d.(pending := false, inProgress := true, masked := d.masked && !(d.pending && chip.unmask)), Running)
  {
    hide Section;
    One(chip, d, MayRun, 9);
    if d.inProgress {
      RecordSection(chip, d, 8);
    } else {
      One(chip, d, CheckEnabled, 8);
      if d.disabled || !d.action {
        RecordSection(chip, d, 7);
      } else {
        One(chip, d, Ack, 7);
        LoopSection(chip, d, 6);
      }
    }
  }

  lemma RecordSection(chip: Chip, d: Desc, n: nat)
    requires n >= 3
    ensures Section(chip, d, SetPending, n) == (d.(pending := true, masked := d.masked || chip.mask || chip.maskAck), Idle)
  {
    hide Section;
    hide MaskAckIrq;
    var d1 := d.(pending := true);
    MaskFacts(chip, d1);
    One(chip, d, SetPending, n);
    One(chip, d1, MaskAck, n - 1);
    One(chip, MaskAckIrq(chip, d1), Unlock, n - 2);
  }

  /** From the head of the loop to the handlers. */
  lemma LoopSection(chip: Chip, d: Desc, n: nat)
    requires d.action && !d.disabled && n >= 6
    ensures Section(chip, d, LoopAction, n) ==
            (d.(pending := false, inProgress := true, masked := d.masked && !(d.pending && chip.unmask)), Running)
  {
    hide Section;
    hide UnmaskIrq;
    MaskFacts(chip, d);
    One(chip, d, LoopAction, n);
    One(chip, d, LoopPending, n - 1);
    if d.pending {
      One(chip, d, Reenable, n - 2);
      StartSection(chip, UnmaskIrq(chip, d), n - 3);
    } else {
      StartSection(chip, d, n - 2);
    }
  }

  /** handle_irq_event up to the handlers. */
  lemma StartSection(chip: Chip, d: Desc, n: nat)
    requires n >= 3
    ensures Section(chip, d, ClearPending, n) == (d.(pending := false, inProgress := true), Running)
  {
    hide Section;
    One(chip, d, ClearPending, n);
    One(chip, d.(pending := false), SetInProgress, n - 1);
    One(chip, d.(pending := false, inProgress := true), DropLock, n - 2);
  }

  /** After the handlers: again if another edge came and the line is enabled, unless the action is gone. */
  lemma ReturnSection(chip: Chip, d: Desc)
    ensures Section(chip, d, ClearInProgress, 8) ==
            if !d.pending || d.disabled then (d.(inProgress := false), Idle)
            else if !d.action then (d.(inProgress := false, masked := d.masked || chip.mask), Idle)
            else (d.(pending := false, inProgress := true, masked := d.masked && !chip.unmask), Running)
  {
    hide Section;
    hide MaskIrq;
    var d1 := d.(inProgress := false);
    MaskFacts(chip, d1);
    One(chip, d, ClearInProgress, 8);
    One(chip, d1, LoopTest, 7);
    if !d.pending || d.disabled {
      One(chip, d1, Unlock, 6);
    } else if d.action {
      LoopSection(chip, d1, 6);
    } else {
      One(chip, d1, LoopAction, 6);
      One(chip, d1, MaskNoAction, 5);
      One(chip, MaskIrq(chip, d1), Unlock, 4);
    }
  }

  lemma Leave(chip: Chip, d: Desc, n: nat)
    requires n > 0
    ensures Section(chip, d, Unlock, n) == (d, Idle)
  {
  }

  /** irq_enable */
  lemma EnableSection(chip: Chip, d: Desc)
    ensures Section(chip, d, EnTest, 4) ==
            (d.(disabled := false, masked := d.masked && !(if d.disabled && chip.enable then true else chip.unmask)), Idle)
  {
    hide *;
    if d.disabled { EnableDisabled(chip, d); } else { EnableEnabled(chip, d); }
  }

  lemma EnableEnabled(chip: Chip, d: Desc)
    requires !d.disabled
    ensures Section(chip, d, EnTest, 4) == (d.(masked := d.masked && !chip.unmask), Idle)
  {
    hide Section;
    hide UnmaskIrq;
    MaskFacts(chip, d);
    One(chip, d, EnTest, 4);
    One(chip, d, EnUnmaskOnly, 3);
    Leave(chip, UnmaskIrq(chip, d), 2);
  }

  lemma EnableDisabled(chip: Chip, d: Desc)
    requires d.disabled
    ensures Section(chip, d, EnTest, 4) ==
            (d.(disabled := false, masked := d.masked && !(chip.enable || chip.unmask)), Idle)
  {
    hide Section;
    hide UnmaskIrq;
    One(chip, d, EnTest, 4);
    One(chip, d, EnClear, 3);
    ChipEnables(chip, d.(disabled := false));
  }

  lemma ChipEnables(chip: Chip, d: Desc)
    ensures Section(chip, d, EnChip, 2) == (d.(masked := false), Idle)
    ensures Section(chip, d, EnUnmask, 2) == (d.(masked := d.masked && !chip.unmask), Idle)
  {
    hide Section;
    hide UnmaskIrq;
    MaskFacts(chip, d);
    One(chip, d, EnChip, 2);
    Leave(chip, d.(masked := false), 1);
    One(chip, d, EnUnmask, 2);
    Leave(chip, UnmaskIrq(chip, d), 1);
  }

  /** __irq_disable: without a callback, and if not asked to mask, the line is only marked. */
  lemma DisableSection(chip: Chip, d: Desc, m: bool)
    ensures Section(chip, d, DisTest(m), 4) ==
            (d.(disabled := true, masked := d.masked || (if !d.disabled && chip.disable then true else m && chip.mask)), Idle)
  {
    hide *;
    if d.disabled { DisableDisabled(chip, d, m); } else { DisableEnabled(chip, d, m); }
  }

  lemma DisableDisabled(chip: Chip, d: Desc, m: bool)
    requires d.disabled
    ensures Section(chip, d, DisTest(m), 4) == (d.(masked := d.masked || (m && chip.mask)), Idle)
  {
    hide Section;
    hide MaskIrq;
    MaskFacts(chip, d);
    One(chip, d, DisTest(m), 4);
    if m {
      One(chip, d, DisMask, 3);
      Leave(chip, MaskIrq(chip, d), 2);
    } else {
      Leave(chip, d, 3);
    }
  }

  lemma DisableEnabled(chip: Chip, d: Desc, m: bool)
    requires !d.disabled
    ensures Section(chip, d, DisTest(m), 4) ==
            (d.(disabled := true, masked := d.masked || chip.disable || (m && chip.mask)), Idle)
  {
    hide Section;
    hide MaskIrq;
    One(chip, d, DisTest(m), 4);
    One(chip, d, DisSet(m), 3);
    if chip.disable {
      ChipDisables(chip, d.(disabled := true));
    } else if m {
      ChipMasks(chip, d.(disabled := true));
    } else {
      Leave(chip, d.(disabled := true), 2);
    }
  }

  lemma ChipDisables(chip: Chip, d: Desc)
    ensures Section(chip, d, DisChip, 2) == (d.(masked := true), Idle)
  {
    hide Section;
    One(chip, d, DisChip, 2);
    Leave(chip, d.(masked := true), 1);
  }

  lemma ChipMasks(chip: Chip, d: Desc)
    ensures Section(chip, d, DisMask, 2) == (d.(masked := d.masked || chip.mask), Idle)
  {
    hide Section;
    hide MaskIrq;
    MaskFacts(chip, d);
    One(chip, d, DisMask, 2);
    Leave(chip, MaskIrq(chip, d), 1);
  }

  ghost function Gos(es: seq<Event>, c: Cpu): nat {
    if es == [] then 0 else Gos(es[..|es| - 1], c) + if es[|es| - 1] == Go(c) then 1 else 0
  }

  lemma {:induction false} SectionStep(chip: Chip, d: Desc, at: Pos, n: nat)
    requires Section(chip, d, at, n).1.Holds?
    ensures var (d', pc) := Section(chip, d, at, n); Section(chip, d, at, n + 1) == (Act(chip, d', pc.at), Next(chip, d', pc.at))
    ensures forall k: nat | k <= n :: Section(chip, d, at, k).1.Holds?
    decreases n
  {
    hide Act;
    hide Next;
    if n > 0 {
      var pc := Next(chip, d, at);
      SectionStep(chip, Act(chip, d, at), pc.at, n - 1);
      forall k: nat | k <= n ensures Section(chip, d, at, k).1.Holds? {
        if k > 0 { assert Section(chip, Act(chip, d, at), pc.at, k - 1).1.Holds?; }
      }
    }
  }

  /** Whatever the other CPUs do, it is done as if they did nothing. */
  lemma {:induction false} SectionIsAtomic(s: State, c: Cpu, at: Pos, es: seq<Event>)
    requires Inv(s) && s.pc(c) == Holds(at) && Section(s.chip, s.d, at, Gos(es, c)).1.Holds?
    ensures var s' := Run(s, es); Inv(s') && s'.chip == s.chip && (s'.d, s'.pc(c)) == Section(s.chip, s.d, at, Gos(es, c))
    decreases |es|
  {
    hide Step;
    hide Inv;
    hide Section;
    if es == [] {
      assert Section(s.chip, s.d, at, 0) == (s.d, Holds(at)) by { SectionNone(s.chip, s.d, at); }
    } else {
      var es1, e := es[..|es| - 1], es[|es| - 1];
      var n := Gos(es1, c);
      SectionStep(s.chip, s.d, at, Gos(es, c));
      SectionIsAtomic(s, c, at, es1);
      var s1 := Run(s, es1);
      StepKeepsInv(s1, e);
      if e == Go(c) { SectionStep(s.chip, s.d, at, n); }
      HolderAlone(s1, c, e);
    }
  }

  lemma SectionNone(chip: Chip, d: Desc, at: Pos)
    ensures Section(chip, d, at, 0) == (d, Holds(at))
  {
  }

  lemma HolderAlone(s: State, c: Cpu, e: Event)
    requires Inv(s) && s.pc(c).Holds?
    ensures var s' := Step(s, e);
            if e == Go(c) then s'.d == Act(s.chip, s.d, s.pc(c).at) && s'.pc(c) == Next(s.chip, s.d, s.pc(c).at)
            else s'.d == s.d && s'.pc(c) == s.pc(c)
  {
    hide Act;
    hide Next;
    assert CpuOk(s, c) && CpuOk(s, e.cpu);
  }

  // ---------------------------------------------------------------------------
  // Enabling and disabling

  /** On the way to enable the line, or to disable it. */
  predicate Turns(at: Pos, on: bool) { if on then at.EnTest? || at.EnClear? else at.DisTest? || at.DisSet? }

  predicate Turning(pc: Pc, on: bool) { (pc.Spins? && Turns(pc.next, on)) || (pc.Holds? && Turns(pc.at, on)) }

  /** Nobody is on the way to do the opposite. */
  ghost predicate Unopposed(s: State, on: bool) { forall x: Cpu :: !Turning(s.pc(x), !on) }

  predicate Agreeing(e: Event, on: bool) { if on then !e.Disable? else !e.Enable? }

  /** The line has been turned on or off, or CPU c is on the way to do so. */
  ghost predicate Turned(s: State, c: Cpu, on: bool) {
    (s.d.disabled == !on || Turning(s.pc(c), on)) && Unopposed(s, on)
  }

  lemma HolderTurns(chip: Chip, d: Desc, at: Pos, on: bool)
    requires !Turns(at, !on)
    ensures var d', pc := Act(chip, d, at), Next(chip, d, at);
            !Turning(pc, !on) && (d.disabled == !on ==> d'.disabled == !on)
  {
  }

  lemma StartNeeds(chip: Chip, d: Desc, at: Pos)
    requires HolderOk(chip, d, at)
    ensures at.ClearPending? ==> !d.disabled && d.action && !d.inProgress
  {
  }

  lemma HolderArrives(chip: Chip, d: Desc, at: Pos, on: bool)
    requires Turns(at, on)
    ensures Turning(Next(chip, d, at), on) || Act(chip, d, at).disabled == !on
  {
  }

  lemma StepTurns(s: State, e: Event, c: Cpu, on: bool)
    requires Inv(s) && Turned(s, c, on) && Agreeing(e, on)
    ensures Turned(Step(s, e), c, on) && (s.d.disabled == !on ==> Step(s, e).d.disabled == !on)
    ensures s.d.disabled && !on ==> Step(s, e).starts == s.starts
  {
    hide Act;
    hide Next;
    hide HolderOk;
    var s' := Step(s, e);
    assert CpuOk(s, e.cpu) && !Turning(s.pc(e.cpu), !on);
    if s.pc(e.cpu).Holds? { StartNeeds(s.chip, s.d, s.pc(e.cpu).at); }
    if e.Go? && s.pc(e.cpu).Holds? {
      HolderTurns(s.chip, s.d, s.pc(e.cpu).at, on);
      if Turns(s.pc(e.cpu).at, on) { HolderArrives(s.chip, s.d, s.pc(e.cpu).at, on); }
    }
    forall x: Cpu ensures !Turning(s'.pc(x), !on) { assert !Turning(s.pc(x), !on); }
  }

  lemma {:induction false} RunTurns(s: State, es: seq<Event>, c: Cpu, on: bool)
    requires Inv(s) && Turned(s, c, on) && forall k | 0 <= k < |es| :: Agreeing(es[k], on)
    ensures var s' := Run(s, es);
            && Inv(s') && Turned(s', c, on) && (s.d.disabled == !on ==> s'.d.disabled == !on)
            && (s.d.disabled && !on ==> s'.starts == s.starts)
    decreases |es|
  {
    hide Step;
    hide Inv;
    hide Turned;
    if es != [] {
      var s1, e := Run(s, es[..|es| - 1]), es[|es| - 1];
      RunTurns(s, es[..|es| - 1], c, on);
      StepTurns(s1, e, c, on);
      StepKeepsInv(s1, e);
    }
  }

  /**
   irq_enable and irq_disable: once the CPU that turned the line on or off has returned, and as long as nobody turns it the
   other way, the line is enabled or disabled.  No handlers are started on a line that has been disabled.
   */
  lemma TurnHolds(s: State, before: seq<Event>, e: Event, during: seq<Event>, after: seq<Event>)
    requires Initial(s) && (e.Enable? || e.Disable?) && Run(s, before).pc(e.cpu).Idle? && Unopposed(Run(s, before), e.Enable?)
    requires forall k | 0 <= k < |during| :: Agreeing(during[k], e.Enable?)
    requires forall k | 0 <= k < |after| :: Agreeing(after[k], e.Enable?)
    requires Run(Step(Run(s, before), e), during).pc(e.cpu).Idle?
    ensures var s2 := Run(Step(Run(s, before), e), during);
            var s3 := Run(s2, after);
            s2.d.disabled == s3.d.disabled == e.Disable? && (e.Disable? ==> s3.starts == s2.starts)
  {
    hide *;
    var s1 := Run(s, before);
    RunKeepsInv(s, before);
    StepKeepsInv(s1, e);
    TurnBegins(s1, e);
    RunTurns(Step(s1, e), during, e.cpu, e.Enable?);
    RunTurns(Run(Step(s1, e), during), after, e.cpu, e.Enable?);
    TurnEnds(Run(Step(s1, e), during), e);
  }

  lemma TurnBegins(s: State, e: Event)
    requires (e.Enable? || e.Disable?) && s.pc(e.cpu).Idle? && Unopposed(s, e.Enable?)
    ensures Turned(Step(s, e), e.cpu, e.Enable?)
  {
  }

  lemma TurnEnds(s: State, e: Event)
    requires (e.Enable? || e.Disable?) && Turned(s, e.cpu, e.Enable?) && s.pc(e.cpu).Idle?
    ensures s.d.disabled == e.Disable?
  {
  }

  // ---------------------------------------------------------------------------
  // The condition on the chip is exact

  ghost predicate Reaches(s: State, s': State) { exists es :: Run(s, es) == s' }

  lemma ReachSelf(s: State)
    ensures Reaches(s, s)
  {
    assert Run(s, []) == s;
  }

  lemma ReachStep(s: State, s': State, e: Event)
    requires Reaches(s, s')
    ensures Reaches(s, Step(s', e))
  {
    hide Step;
    var es :| Run(s, es) == s';
    RunOne(s, es, e);
  }

  /** The descriptor, the lock and the first two CPUs, after a run from s. */
  ghost predicate Seen(s: State, t: State, d: Desc, lock: Option<Cpu>, pc0: Pc, pc1: Pc) {
    Reaches(s, t) && t.chip == s.chip && t.d == d && t.lock == lock && t.pc(0) == pc0 && t.pc(1) == pc1
  }

  lemma Begin(s: State, t: State, e: Event) returns (t': State)
    requires Seen(s, t, t.d, None, t.pc(0), t.pc(1)) && !e.Go? && e.cpu < 2 && t.pc(e.cpu).Idle?
    ensures var pc := Holds(First(e));
            Seen(s, t', t.d, Some(e.cpu), if e.cpu == 0 then pc else t.pc(0), if e.cpu == 1 then pc else t.pc(1))
  {
    hide Reaches;
    ReachStep(s, t, e);
    t' := Step(t, e);
    ReachStep(s, t', Go(e.cpu));
    t' := Step(t', Go(e.cpu));
  }

  /** A step inside the lock. */
  lemma GoOn(s: State, t: State, c: Cpu, at: Pos) returns (t': State)
    requires Seen(s, t, t.d, Some(c), t.pc(0), t.pc(1)) && c < 2 && t.pc(c) == Holds(at)
    ensures var pc := Next(s.chip, t.d, at);
            Seen(s, t', Act(s.chip, t.d, at), if pc.Holds? then Some(c) else None,
                 if c == 0 then pc else t.pc(0), if c == 1 then pc else t.pc(1))
  {
    hide Reaches;
    hide Act;
    hide Next;
    ReachStep(s, t, Go(c));
    t' := Step(t, Go(c));
  }

  /** Enabling a line whose chip can neither unmask nor enable leaves it masked; otherwise enable clears the bit. */
  lemma EnableOnce(s: State, t: State) returns (t': State)
    requires Seen(s, t, t.d, None, Idle, Idle) && t.d.disabled && t.d.masked && !s.chip.unmask
    ensures Seen(s, t', t.d.(disabled := false, masked := !s.chip.enable), None, Idle, Idle)
  {
    hide Reaches;
    t' := Begin(s, t, Enable(0));
    t' := GoOn(s, t', 0, EnTest);
    t' := GoOn(s, t', 0, EnClear);
    t' := GoOn(s, t', 0, if s.chip.enable then EnChip else EnUnmask);
    t' := GoOn(s, t', 0, Unlock);
  }

  lemma InstallAction(s: State, t: State) returns (t': State)
    requires Seen(s, t, t.d, None, Idle, Idle)
    ensures Seen(s, t', t.d.(action := true), None, Idle, Idle)
  {
    hide Reaches;
    t' := Begin(s, t, SetAction(0, true));
    t' := GoOn(s, t', 0, ActWrite(true));
    t' := GoOn(s, t', 0, Unlock);
  }

  /** From the head of the loop to the handlers; without an unmask callback nothing is unmasked. */
  lemma ToHandlers(s: State, t: State) returns (t': State)
    requires Seen(s, t, t.d, Some(0), Holds(LoopAction), t.pc(1)) && t.d.action && !s.chip.unmask
    ensures Seen(s, t', t.d.(pending := false, inProgress := true), None, Running, t.pc(1))
  {
    hide Reaches;
    t' := GoOn(s, t, 0, LoopAction);
    t' := GoOn(s, t', 0, LoopPending);
    if t.d.pending { t' := GoOn(s, t', 0, Reenable); }
    t' := GoOn(s, t', 0, ClearPending);
    t' := GoOn(s, t', 0, SetInProgress);
    t' := GoOn(s, t', 0, DropLock);
  }

  lemma TakeEdge(s: State, t: State) returns (t': State)
    requires Seen(s, t, Desc(false, false, false, false, true), None, Idle, Idle) && !s.chip.unmask
    ensures Seen(s, t', Desc(false, true, false, false, true), None, Running, Idle)
  {
    hide Reaches;
    t' := Begin(s, t, Edge(0));
    t' := GoOn(s, t', 0, MayRun);
    t' := GoOn(s, t', 0, CheckEnabled);
    t' := GoOn(s, t', 0, Ack);
    t' := ToHandlers(s, t');
  }

  /** A second CPU takes an edge while the handlers run: it records it and masks the line. */
  lemma SecondEdge(s: State, t: State) returns (t': State)
    requires Seen(s, t, Desc(false, true, false, false, true), None, Running, Idle) && (s.chip.mask || s.chip.maskAck)
    ensures Seen(s, t', Desc(true, true, false, true, true), None, Running, Idle)
  {
    hide Reaches;
    t' := Begin(s, t, Edge(1));
    t' := GoOn(s, t', 1, MayRun);
    t' := GoOn(s, t', 1, SetPending);
    t' := GoOn(s, t', 1, MaskAck);
    t' := GoOn(s, t', 1, Unlock);
  }

  /** The first CPU loops: the line stays masked when PENDING is cleared. */
  lemma LoopAgain(s: State, t: State) returns (t': State)
    requires Seen(s, t, Desc(true, true, false, true, true), None, Running, Idle) && !s.chip.unmask
    ensures Seen(s, t', Desc(false, true, false, true, true), None, Running, Idle)
  {
    hide Reaches;
    ReachStep(s, t, Go(0));
    t' := Step(t, Go(0));
    ReachStep(s, t', Go(0));
    t' := Step(t', Go(0));
    t' := GoOn(s, t', 0, ClearInProgress);
    t' := GoOn(s, t', 0, LoopTest);
    t' := ToHandlers(s, t');
  }

  /** With any other chip some run leaves the line enabled, masked and not pending, with the lock free. */
  lemma UnexplainedMask(s: State)
    requires Initial(s) && !Restores(s.chip)
    ensures exists es :: var s' := Run(s, es); s'.d.masked && !s'.d.pending && !s'.d.disabled && s'.lock == None
  {
    hide Run;
    hide Reaches;
    ReachSelf(s);
    var t := s;
    if !s.chip.enable {
      t := EnableOnce(s, t);
    } else {
      t := InstallAction(s, t);
      t := EnableOnce(s, t);
      t := TakeEdge(s, t);
      t := SecondEdge(s, t);
      t := LoopAgain(s, t);
    }
    Witness(s, t);
  }

  lemma Witness(s: State, t: State)
    requires Reaches(s, t) && t.d.masked && !t.d.pending && !t.d.disabled && t.lock == None
    ensures exists es :: var s' := Run(s, es); s'.d.masked && !s'.d.pending && !s'.d.disabled && s'.lock == None
  {
    hide Run;
    var es :| Run(s, es) == t;
  }
}
