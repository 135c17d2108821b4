/** What smp_call_function_single (kernel/core/smp.c) does with a call: the answer it gives, and where the call goes. */
module SmpAnswer {
  import opened SmpCall
  import opened Options

  /** Calls to this CPU and to other online CPUs are made, all others are refused. */
  predicate Admitted(s: State, c: Cpu, t: Cpu) { t == c || s.online(t) }

  /** Where an admitted call is recorded. */
  ghost function Book(h: History, c: Cpu, t: Cpu): seq<Node> { if t == c then h.local(c) else h.added(t) }

  /** No trace of a call. */
  ghost predicate Unknown(h: History, id: nat) {
    forall x: Cpu, n: Node | n in h.added(x) || n in h.local(x) :: n.id != id
  }

  /** An admitted call is on the queue of its target, or has run here; one that is refused is nowhere. */
  ghost predicate Settled(s: State, c: Cpu, t: Cpu, n: Node) {
    if Admitted(s, c, t) then n in Book(s.h, c, t) else Unknown(s.h, n.id)
  }

  /** Who makes a call. */
  ghost predicate Owned(s: State, c: Cpu) { s.pc(c).Idle? || (s.pc(c).id < s.h.issued && s.h.caller(s.pc(c).id) == c) }

  ghost predicate AnswerOk(s: State, c: Cpu) {
    match s.pc(c)
    case Idle => true
    case LockCsd(_, _, id) => Unknown(s.h, id)
    case Exec(_, _, _, id) => Unknown(s.h, id)
    case RunLocal(_, t, _, id) => t == c && Unknown(s.h, id)
    case AddList(_, t, _, id) => t != c && s.online(t) && Unknown(s.h, id)
    case SendIpi(d, t, call, id) => t != c && s.online(t) && Node(d, call, id) in s.h.added(t)
    case Finish(d, t, call, id, err) =>
      err == (if Admitted(s, c, t) then 0 else -ENXIO) && Settled(s, c, t, Node(d, call, id))
  }

  ghost predicate Known(s: State) { forall x: Cpu, n: Node | n in s.h.added(x) || n in s.h.local(x) :: n.id < s.h.issued }

  ghost predicate Answers(s: State) { Known(s) && forall c :: Owned(s, c) && AnswerOk(s, c) }

  // ---------------------------------------------------------------------------
  // Every step keeps it

  /** A step that puts no call anywhere, or one of another CPU. */
  ghost predicate BooksGrow(h: History, h': History, c: Cpu) {
    && h.issued <= h'.issued && (forall id: nat | id < h.issued :: h'.caller(id) == h.caller(id))
    && (forall x, n | n in h.added(x) :: n in h'.added(x)) && (forall x, n | n in h.local(x) :: n in h'.local(x))
    && (forall x, n | n in h'.added(x) :: n in h.added(x) || (n.id < h.issued && h.caller(n.id) == c))
    && (forall x, n | n in h'.local(x) :: n in h.local(x) || (n.id < h.issued && h.caller(n.id) == c))
  }

  lemma OthersAnswer(s: State, s': State, c: Cpu, x: Cpu)
    requires Answers(s) && BooksGrow(s.h, s'.h, c) && s'.online == s.online && s'.pc(x) == s.pc(x) && x != c
    ensures Owned(s', x) && AnswerOk(s', x)
  {
    assert Owned(s, x) && AnswerOk(s, x);
  }

  lemma BeginAnswers(s: State, c: Cpu, t: Cpu, call: Call, wait: bool)
    requires Answers(s)
    ensures Answers(StepBegin(s, c, t, call, wait))
  {
    var s' := StepBegin(s, c, t, call, wait);
    if s.pc(c).Idle? {
      forall x ensures Owned(s', x) && AnswerOk(s', x) { if x != c { OthersAnswer(s, s', c, x); } }
    }
  }

  /** What a step of the caller does to the books, on which the rest of the step has no influence. */
  lemma CallerHistory(s: State, c: Cpu)
    ensures var h, h' := s.h, StepCaller(s, c).h;
            && h'.issued == h.issued && h'.caller == h.caller
            && (match s.pc(c)
                case AddList(d, t, call, id) =>
                  h'.added == Put(h.added, t, h.added(t) + [Node(d, call, id)]) && h'.local == h.local
                case RunLocal(d, _, call, id) =>
                  h'.local == Put(h.local, c, h.local(c) + [Node(d, call, id)]) && h'.added == h.added
                case _ => h'.added == h.added && h'.local == h.local)
    ensures StepCaller(s, c).online == s.online && forall x | x != c :: StepCaller(s, c).pc(x) == s.pc(x)
  {
    hide Set;
  }

  lemma OneMore(f: Cpu -> seq<Node>, t: Cpu, m: Node)
    ensures forall x: Cpu, n: Node :: n in Put(f, t, f(t) + [m])(x) <==> n in f(x) || (x == t && n == m)
  {
  }

  lemma CallerBooks(s: State, c: Cpu)
    requires Answers(s)
    ensures var s' := StepCaller(s, c); BooksGrow(s.h, s'.h, c) && s'.online == s.online && Known(s')
    ensures forall x | x != c :: StepCaller(s, c).pc(x) == s.pc(x)
  {
    hide StepCaller;
    hide Put;
    hide AnswerOk;
    assert Owned(s, c);
    CallerHistory(s, c);
    match s.pc(c)
    case AddList(d, t, call, id) => OneMore(s.h.added, t, Node(d, call, id));
    case RunLocal(d, _, call, id) => OneMore(s.h.local, c, Node(d, call, id));
    case _ =>
  }

  lemma CallerAnswers(s: State, c: Cpu)
    requires Answers(s)
    ensures Answers(StepCaller(s, c))
  {
    var s' := StepCaller(s, c);
    CallerBooks(s, c);
    forall x ensures Owned(s', x) && AnswerOk(s', x) {
      if x == c { CallerAnswersItself(s, c); } else { OthersAnswer(s, s', c, x); }
    }
  }

  lemma CallerAnswersItself(s: State, c: Cpu)
    requires Answers(s)
    ensures Owned(StepCaller(s, c), c) && AnswerOk(StepCaller(s, c), c)
  {
    assert Owned(s, c) && AnswerOk(s, c);
  }

  lemma StepAnswers(s: State, e: Event)
    requires Answers(s)
    ensures Answers(Step(s, e)) && Step(s, e).online == s.online
  {
    hide Answers;
    hide StepCaller;
    hide StepBegin;
    match e
    case Begin(c, t, call, wait) => BeginAnswers(s, c, t, call, wait); BeginOnline(s, c, t, call, wait);
    case CallerStep(c) => CallerAnswers(s, c); CallerHistory(s, c);
    case Interrupt(_) => SameBooks(s, Step(s, e));
    case FlushStep(_) => SameBooks(s, Step(s, e));
  }

  lemma BeginOnline(s: State, c: Cpu, t: Cpu, call: Call, wait: bool)
    ensures StepBegin(s, c, t, call, wait).online == s.online
  {
  }

  lemma SameBooks(s: State, s': State)
    requires Answers(s) && s'.online == s.online && s'.pc == s.pc
    requires s'.h.added == s.h.added && s'.h.local == s.h.local && s'.h.issued == s.h.issued && s'.h.caller == s.h.caller
    ensures Answers(s')
  {
    forall x ensures Owned(s', x) && AnswerOk(s', x) { assert Owned(s, x) && AnswerOk(s, x); }
  }

  lemma {:induction false} RunOnline(s: State, es: seq<Event>)
    requires Answers(s)
    ensures Answers(Run(s, es)) && Run(s, es).online == s.online
    decreases |es|
  {
    hide Step;
    hide Answers;
    if es != [] {
      RunOnline(s, es[..|es| - 1]);
      StepAnswers(Run(s, es[..|es| - 1]), es[|es| - 1]);
    }
  }

  lemma RunAnswers(s: State, es: seq<Event>)
    requires Initial(s)
    ensures Answers(Run(s, es)) && Run(s, es).online == s.online
  {
    assert Answers(s);
    RunOnline(s, es);
  }

  // ---------------------------------------------------------------------------
  // The answer

  /** After every run: a call is refused exactly if its target is another CPU that is not online, and then it is nowhere. */
  lemma AnswerIsRight(s: State, es: seq<Event>, c: Cpu)
    requires Initial(s) && Run(s, es).pc(c).Finish?
    ensures var s' := Run(s, es); var pc := s'.pc(c); var n := Node(pc.csd, pc.call, pc.id);
            && (pc.err == -ENXIO <==> pc.target != c && !s.online(pc.target))
            && (pc.err == 0 <==> pc.target == c || s.online(pc.target))
            && (pc.target == c ==> n in s'.h.local(c))
            && (pc.target != c && s.online(pc.target) ==> n in s'.h.added(pc.target))
            && (pc.err != 0 ==> Unknown(s'.h, pc.id))
  {
    hide Run;
    RunAnswers(s, es);
    assert AnswerOk(Run(s, es), c);
  }

  /** The caller is at work on this call. */
  predicate Serves(pc: Pc, t: Cpu, call: Call, d: Csd, id: nat) {
    !pc.Idle? && pc.target == t && pc.call == call && pc.id == id && (if pc.LockCsd? then d.PerCpu? else pc.csd == d)
  }

  /** ... or has returned; if it was to wait and was not refused, its function has run on the target. */
  ghost predicate Followed(s: State, c: Cpu, t: Cpu, call: Call, d: Csd, id: nat) {
    if !s.pc(c).Idle? then d.cpu == c && Serves(s.pc(c), t, call, d, id)
    else Settled(s, c, t, Node(d, call, id)) && (d.Stack? && Admitted(s, c, t) ==> HasRun(s.h, c, t, Node(d, call, id)))
  }

  /** A call that CPU c has made. */
  ghost predicate Made(h: History, c: Cpu, id: nat) { id < h.issued && h.caller(id) == c }

  lemma OwnStepFollows(s: State, c: Cpu, t: Cpu, call: Call, d: Csd, id: nat)
    requires Good(s) && Answers(s) && Followed(s, c, t, call, d, id)
    ensures Followed(StepCaller(s, c), c, t, call, d, id)
  {
    hide *;
    CallerHistory(s, c);
    CallerAnswersItself(s, c);
    if s.pc(c).Finish? { ReturnFollows(s, c, t, call, d, id); } else { WorkFollows(s, c, t, call, d, id); }
  }

  lemma WorkFollows(s: State, c: Cpu, t: Cpu, call: Call, d: Csd, id: nat)
    requires Followed(s, c, t, call, d, id) && !s.pc(c).Finish?
    ensures Followed(StepCaller(s, c), c, t, call, d, id)
  {
    hide Set;
    hide Unknown;
  }

  lemma ReturnFollows(s: State, c: Cpu, t: Cpu, call: Call, d: Csd, id: nat)
    requires Good(s) && Answers(s) && Followed(s, c, t, call, d, id) && s.pc(c).Finish?
    ensures Followed(StepCaller(s, c), c, t, call, d, id)
  {
    hide QueueOk;
    hide BatchOk;
    hide Unknown;
    assert CallerOk(s, c) && CsdOk(s, d) && AnswerOk(s, c);
  }

  lemma OtherStepFollows(s: State, e: Event, c: Cpu, t: Cpu, call: Call, d: Csd, id: nat)
    requires Answers(s) && Followed(s, c, t, call, d, id) && Made(s.h, c, id)
    requires e.FlushStep? || e.Interrupt? || e.cpu != c
    ensures Followed(Step(s, e), c, t, call, d, id)
  {
    hide Answers;
    hide StepCaller;
    hide StepFlush;
    match e
    case Begin(x, _, _, _) =>
    case CallerStep(x) =>
      CallerBooks(s, x);
      CallerRan(s, x);
    case Interrupt(_) =>
    case FlushStep(x) => FlushBooks(s, x);
  }

  lemma CallerRan(s: State, c: Cpu)
    ensures StepCaller(s, c).h.ran == s.h.ran
  {
    hide Set;
    hide Put;
  }

  lemma FlushBooks(s: State, c: Cpu)
    ensures var s' := StepFlush(s, c);
            && s'.pc == s.pc && s'.online == s.online && s'.h.added == s.h.added && s'.h.local == s.h.local
            && forall x, n | n in s.h.ran(x) :: n in s'.h.ran(x)
  {
    hide Set;
    hide SetPlaces;
  }

  lemma StepFollows(s: State, e: Event, c: Cpu, t: Cpu, call: Call, d: Csd, id: nat)
    requires Good(s) && Answers(s) && Followed(s, c, t, call, d, id) && Made(s.h, c, id) && !(e.Begin? && e.cpu == c)
    ensures Followed(Step(s, e), c, t, call, d, id) && Made(Step(s, e).h, c, id)
  {
    hide Inv;
    hide IdsOk;
    hide Followed;
    if e == CallerStep(c) { OwnStepFollows(s, c, t, call, d, id); } else { OtherStepFollows(s, e, c, t, call, d, id); }
  }

  lemma StepIsGood(s: State, e: Event)
    requires Good(s)
    ensures Good(Step(s, e))
  {
    hide Inv;
    hide IdsOk;
    StepKeepsInv(s, e);
    StepKeepsIds(s, e);
    StepLocated(s, e);
  }

  lemma {:induction false} RunFollows(s: State, es: seq<Event>, c: Cpu, t: Cpu, call: Call, d: Csd, id: nat)
    requires Good(s) && Answers(s) && Followed(s, c, t, call, d, id) && Made(s.h, c, id)
    requires forall k | 0 <= k < |es| :: !(es[k].Begin? && es[k].cpu == c)
    ensures Followed(Run(s, es), c, t, call, d, id) && Made(Run(s, es).h, c, id) && Good(Run(s, es)) && Answers(Run(s, es))
    decreases |es|
  {
    hide Step;
    hide Good;
    hide Followed;
    hide Answers;
    if es != [] {
      var s1, e := Run(s, es[..|es| - 1]), es[|es| - 1];
      RunFollows(s, es[..|es| - 1], c, t, call, d, id);
      StepFollows(s1, e, c, t, call, d, id);
      StepIsGood(s1, e);
      StepAnswers(s1, e);
    }
  }

  /**
   Every call, from smp_call_function_single to its return: until it returns, the caller is at work on this call.  When it
   has returned, the call is on the queue of its target or, if this is the caller's own CPU, has run there, unless it was
   refused.  A call that was to wait has run.
   */
  lemma CallIsAnswered(s: State, before: seq<Event>, c: Cpu, t: Cpu, call: Call, wait: bool, after: seq<Event>)
    requires Initial(s) && Run(s, before).pc(c).Idle?
    requires forall k | 0 <= k < |after| :: !(after[k].Begin? && after[k].cpu == c)
    ensures var s1 := Run(s, before); var s2 := Run(Step(s1, Begin(c, t, call, wait)), after);
            var d, id := if wait then Stack(c) else PerCpu(c), s1.h.issued;
            var n := Node(d, call, id);
            && (!s2.pc(c).Idle? ==> Serves(s2.pc(c), t, call, d, id))
            && (s2.pc(c).Idle? && t == c ==> n in s2.h.local(c))
            && (s2.pc(c).Idle? && t != c && s.online(t) ==> n in s2.h.added(t) && (wait ==> n in s2.h.ran(t)))
            && (s2.pc(c).Idle? && t != c && !s.online(t) ==> Unknown(s2.h, id))
  {
    hide Run;
    hide Good;
    hide Answers;
    hide Unknown;
    RunIsGood(s, before);
    RunAnswers(s, before);
    var s1 := Run(s, before);
    var s' := Step(s1, Begin(c, t, call, wait));
    var d, id := if wait then Stack(c) else PerCpu(c), s1.h.issued;
    StepIsGood(s1, Begin(c, t, call, wait));
    StepAnswers(s1, Begin(c, t, call, wait));
    RunFollows(s', after, c, t, call, d, id);
    RunOnline(s', after);
  }
}
