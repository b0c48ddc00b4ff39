/**
 spinlock_with_interrupts.c: threads and a timer callback share a spin lock, on any number
 of CPUs.  A callback runs on top of whatever its CPU was doing; while it runs, the thread
 below it does not.  The threads take the lock with spin_lock_irqsave, which first bars
 interrupts from their CPU; with `irqsave` false they would take it with plain spin_lock.
 */
module SpinlockInterrupt {
  import opened Kernel

  datatype Agent = Kthread(t: nat) | Timer(cpu: nat)

  datatype Pc = Idle | Waiting | Locked | Assigned | Printed

  datatype Thread = Thread(cpu: nat, pc: Pc)

  /** `callback` is Idle when no callback runs on the CPU. */
  datatype Cpu = Cpu(irqOff: bool, callback: Pc)

  datatype Print = Print(author: Agent, value: int)

  datatype State = State(irqsave: bool, lock: Option<Agent>, globalVariable: int,
                         threads: seq<Thread>, cpus: seq<Cpu>, prints: seq<Print>)

  datatype Event =
    | RunThread(t: nat)            // the thread's next statement
    | Fire(cpu: nat)               // the timer interrupts a CPU
    | RunCallback(cpu: nat)        // the callback's next statement
    | Migrate(t: nat, cpu: nat)    // the scheduler moves a thread that is outside its section

  /** The thread is current on its CPU: no callback on top of it, no other thread spinning or
      inside the section there (either disables preemption). */
  predicate Current(s: State, t: nat)
    requires t < |s.threads|
  {
    var c := s.threads[t].cpu;
    c < |s.cpus| && s.cpus[c].callback.Idle?
    && forall u | 0 <= u < |s.threads| && u != t && s.threads[u].cpu == c :: s.threads[u].pc.Idle?
  }

  function SetThread(s: State, t: nat, pc: Pc): State
    requires t < |s.threads|
  {
    s.(threads := s.threads[t := s.threads[t].(pc := pc)])
  }

  function SetIrq(s: State, c: nat, off: bool): State
    requires c < |s.cpus|
  {
    if s.irqsave then s.(cpus := s.cpus[c := s.cpus[c].(irqOff := off)]) else s
  }

  function SetCallback(s: State, c: nat, pc: Pc): State
    requires c < |s.cpus|
  {
    s.(cpus := s.cpus[c := s.cpus[c].(callback := pc)])
  }

  function ThreadStep(s: State, t: nat): State
    requires t < |s.threads|
  {
    var c := s.threads[t].cpu;
    if !Current(s, t) then s else
    match s.threads[t].pc
    case Idle => SetIrq(SetThread(s, t, Waiting), c, true)
    case Waiting => if s.lock.None? then SetThread(s, t, Locked).(lock := Some(Kthread(t))) else s
    case Locked => SetThread(s, t, Assigned).(globalVariable := 50)
    case Assigned => SetThread(s, t, Printed).(prints := s.prints + [Print(Kthread(t), s.globalVariable)])
    case Printed => SetIrq(SetThread(s, t, Idle), c, false).(lock := None)
  }

  function CallbackStep(s: State, c: nat): State
    requires c < |s.cpus|
  {
    match s.cpus[c].callback
    case Idle => s
    case Waiting => if s.lock.None? then SetCallback(s, c, Locked).(lock := Some(Timer(c))) else s
    case Locked => SetCallback(s, c, Assigned).(globalVariable := 100)
    case Assigned => SetCallback(s, c, Printed).(prints := s.prints + [Print(Timer(c), s.globalVariable)])
    case Printed => SetCallback(s, c, Idle).(lock := None)
  }

  function Step(s: State, e: Event): State {
    match e
    case RunThread(t) => if t < |s.threads| then ThreadStep(s, t) else s
    case Fire(c) => if c < |s.cpus| && !s.cpus[c].irqOff && s.cpus[c].callback.Idle? then SetCallback(s, c, Waiting) else s
    case RunCallback(c) => if c < |s.cpus| then CallbackStep(s, c) else s
    case Migrate(t, c) =>
      if t < |s.threads| && c < |s.cpus| && s.threads[t].pc.Idle? then
        s.(threads := s.threads[t := Thread(c, Idle)])
      else s
  }

  /** The module's variables, updated in place by thread_function and timer_callback. */
  class SpinlockModule {
    const irqsave: bool
    var lock: Option<Agent>
    var globalVariable: int
    var threads: seq<Thread>
    var cpus: seq<Cpu>
    var prints: seq<Print>

    ghost function Snapshot(): State
      reads this
    {
      State(irqsave, lock, globalVariable, threads, cpus, prints)
    }

    constructor (irqsave: bool, threadCpus: seq<nat>, cpuCount: nat)
      requires forall t | 0 <= t < |threadCpus| :: threadCpus[t] < cpuCount
      ensures Init(Snapshot()) && this.irqsave == irqsave && |threads| == |threadCpus| && |cpus| == cpuCount
    {
      this.irqsave := irqsave;
      lock, globalVariable, prints := None, 0, [];
      threads := seq(|threadCpus|, t requires 0 <= t < |threadCpus| => Thread(threadCpus[t], Idle));
      cpus := seq(cpuCount, _ => Cpu(false, Idle));
    }

    method ThreadFunctionStep(t: nat)
      requires t < |threads|
      modifies this
      ensures Snapshot() == ThreadStep(old(Snapshot()), t)
    {
      var current := Current(State(irqsave, lock, globalVariable, threads, cpus, prints), t);
      if !current {
        return;
      }
      var th := threads[t];
      match th.pc {
        case Idle =>
          if irqsave {
            cpus := cpus[th.cpu := cpus[th.cpu].(irqOff := true)];
          }
          threads := threads[t := th.(pc := Waiting)];
        case Waiting =>
          if lock.None? {
            lock := Some(Kthread(t));
            threads := threads[t := th.(pc := Locked)];
          }
        case Locked =>
          globalVariable := 50;
          threads := threads[t := th.(pc := Assigned)];
        case Assigned =>
          prints := prints + [Print(Kthread(t), globalVariable)];
          threads := threads[t := th.(pc := Printed)];
        case Printed =>
          lock := None;
          if irqsave {
            cpus := cpus[th.cpu := cpus[th.cpu].(irqOff := false)];
          }
          threads := threads[t := th.(pc := Idle)];
      }
    }

    method TimerCallbackStep(c: nat)
      requires c < |cpus|
      modifies this
      ensures Snapshot() == CallbackStep(old(Snapshot()), c)
    {
      match cpus[c].callback {
        case Idle =>
        case Waiting =>
          if lock.None? {
            lock := Some(Timer(c));
            cpus := cpus[c := cpus[c].(callback := Locked)];
          }
        case Locked =>
          globalVariable := 100;
          cpus := cpus[c := cpus[c].(callback := Assigned)];
        case Assigned =>
          prints := prints + [Print(Timer(c), globalVariable)];
          cpus := cpus[c := cpus[c].(callback := Printed)];
        case Printed =>
          lock := None;
          cpus := cpus[c := cpus[c].(callback := Idle)];
      }
    }
  }

  function Exec(s: State, events: seq<Event>): State {
    if events == [] then s else Step(Exec(s, events[..|events| - 1]), events[|events| - 1])
  }

  ghost predicate Init(s: State) {
    && s.lock.None? && s.prints == []
    && (forall t | 0 <= t < |s.threads| :: s.threads[t].pc.Idle? && s.threads[t].cpu < |s.cpus|)
    && (forall c | 0 <= c < |s.cpus| :: s.cpus[c] == Cpu(false, Idle))
  }

  predicate Inside(pc: Pc) {
    pc.Locked? || pc.Assigned? || pc.Printed?
  }

  /** The pc of an agent; Idle for one that does not exist. */
  function PcOf(s: State, a: Agent): Pc {
    match a
    case Kthread(t) => if t < |s.threads| then s.threads[t].pc else Idle
    case Timer(c) => if c < |s.cpus| then s.cpus[c].callback else Idle
  }

  /** One agent at most is inside, and it is the holder; the variable is what it assigned. */
  ghost predicate LockInv(s: State) {
    && (forall a: Agent | Inside(PcOf(s, a)) :: s.lock == Some(a))
    && (s.lock.Some? ==> Inside(PcOf(s, s.lock.value)))
    && (s.lock.Some? && PcOf(s, s.lock.value).Assigned? ==> s.globalVariable == Expected(s.lock.value))
    && (forall i | 0 <= i < |s.prints| :: s.prints[i].value == Expected(s.prints[i].author))
  }

  function Expected(a: Agent): int {
    if a.Kthread? then 50 else 100
  }

  ghost predicate CpuInv(s: State) {
    && (forall t | 0 <= t < |s.threads| :: s.threads[t].cpu < |s.cpus|)
    && (forall t, u | 0 <= t < |s.threads| && 0 <= u < |s.threads| && t != u && s.threads[t].cpu == s.threads[u].cpu ::
          s.threads[t].pc.Idle? || s.threads[u].pc.Idle?)
  }

  /** Some thread on the CPU is between spin_lock_irqsave and spin_unlock_irqrestore. */
  ghost predicate BusyThread(s: State, c: nat) {
    exists t :: 0 <= t < |s.threads| && s.threads[t].cpu == c && !s.threads[t].pc.Idle?
  }

  /** Interrupts are off on a CPU only for a thread that barred them. */
  ghost predicate OffForReason(s: State) {
    forall c | 0 <= c < |s.cpus| && s.cpus[c].irqOff :: BusyThread(s, c)
  }

  lemma StepKeepsReason(s: State, e: Event)
    requires CpuInv(s) && s.irqsave && OffForReason(s)
    ensures OffForReason(Step(s, e))
  {
    forall c | 0 <= c < |s.cpus| && Step(s, e).cpus[c].irqOff
      ensures BusyThread(Step(s, e), c)
    {
      if s.cpus[c].irqOff {
        var t :| 0 <= t < |s.threads| && s.threads[t].cpu == c && !s.threads[t].pc.Idle?;
        StaysBusy(s, e, c, t);
      } else {
        assert e.RunThread? && Step(s, e).threads[e.t].cpu == c && !Step(s, e).threads[e.t].pc.Idle?;
      }
    }
  }

  /** The thread that barred interrupts stays busy until it lets them in again. */
  lemma StaysBusy(s: State, e: Event, c: nat, t: nat)
    requires CpuInv(s) && s.irqsave && c < |s.cpus| && t < |s.threads| && s.threads[t].cpu == c && !s.threads[t].pc.Idle?
    ensures Step(s, e).cpus[c].irqOff ==> Step(s, e).threads[t].cpu == c && !Step(s, e).threads[t].pc.Idle?
  {
  }

  /** With spin_lock_irqsave a busy thread has barred interrupts, so no callback is above it. */
  ghost predicate IrqInv(s: State) {
    && s.irqsave
    && (forall t | 0 <= t < |s.threads| && !s.threads[t].pc.Idle? && s.threads[t].cpu < |s.cpus| ::
          s.cpus[s.threads[t].cpu].irqOff && s.cpus[s.threads[t].cpu].callback.Idle?)
  }

  function Actor(e: Event): Agent {
    match e
    case RunThread(t) => Kthread(t)
    case Fire(c) => Timer(c)
    case RunCallback(c) => Timer(c)
    case Migrate(t, _) => Kthread(t)
  }

  /** What an event can do to its agent; threads and callbacks go through the same program. */
  ghost predicate Moves(s: State, s': State, a: Agent) {
    && (forall b: Agent | b != a :: PcOf(s', b) == PcOf(s, b))
    && match (PcOf(s, a), PcOf(s', a))
       case (Waiting, Locked) =>
         s.lock.None? && s'.lock == Some(a) && s'.globalVariable == s.globalVariable && s'.prints == s.prints
       case (Locked, Assigned) =>
         s'.lock == s.lock && s'.globalVariable == Expected(a) && s'.prints == s.prints
       case (Assigned, Printed) =>
         s'.lock == s.lock && s'.globalVariable == s.globalVariable && s'.prints == s.prints + [Print(a, s.globalVariable)]
       case (Printed, Idle) =>
         s'.lock.None? && s'.globalVariable == s.globalVariable && s'.prints == s.prints
       case (p, p') =>
         && (p == p' || (p.Idle? && p'.Waiting?))
         && s'.lock == s.lock && s'.globalVariable == s.globalVariable && s'.prints == s.prints
  }

  lemma StepMoves(s: State, e: Event)
    ensures Moves(s, Step(s, e), Actor(e))
  {
  }

  lemma StepKeepsLockInv(s: State, e: Event)
    requires LockInv(s)
    ensures LockInv(Step(s, e))
  {
    StepMoves(s, e);
    MoveKeepsLockInv(s, Step(s, e), Actor(e));
  }

  lemma MoveKeepsLockInv(s: State, s': State, a: Agent)
    requires LockInv(s) && Moves(s, s', a)
    ensures LockInv(s')
  {
    forall b: Agent | Inside(PcOf(s', b))
      ensures s'.lock == Some(b)
    {
      assert b != a ==> PcOf(s', b) == PcOf(s, b);
      assert Inside(PcOf(s, a)) ==> s.lock == Some(a);
    }
  }

  lemma StepKeepsCpuInv(s: State, e: Event)
    requires CpuInv(s)
    ensures CpuInv(Step(s, e))
  {
  }

  lemma StepKeepsIrqInv(s: State, e: Event)
    requires CpuInv(s) && IrqInv(s)
    ensures IrqInv(Step(s, e))
  {
  }

  lemma {:induction false} ExecInv(s: State, events: seq<Event>)
    requires Init(s)
    ensures LockInv(Exec(s, events)) && CpuInv(Exec(s, events)) && Exec(s, events).irqsave == s.irqsave
    ensures s.irqsave ==> IrqInv(Exec(s, events)) && OffForReason(Exec(s, events))
  {
    if events == [] {
      assert forall a: Agent :: PcOf(s, a).Idle?;
    } else {
      var before := Exec(s, events[..|events| - 1]);
      var e := events[|events| - 1];
      ExecInv(s, events[..|events| - 1]);
      StepKeepsLockInv(before, e);
      StepKeepsCpuInv(before, e);
      if s.irqsave {
        StepKeepsIrqInv(before, e);
        StepKeepsReason(before, e);
      }
    }
  }

  /** In every reachable state interrupts are off on a CPU if and only if one of its threads is
      between spin_lock_irqsave and spin_unlock_irqrestore. */
  lemma InterruptsOffExactly(s: State, events: seq<Event>, c: nat)
    requires Init(s) && s.irqsave && c < |Exec(s, events).cpus|
    ensures Exec(s, events).cpus[c].irqOff <==> BusyThread(Exec(s, events), c)
  {
    ExecInv(s, events);
  }

  /** At most one agent is inside; a thread always prints 50 and a callback 100. */
  lemma PrintsWhatItAssigned(s: State, events: seq<Event>)
    requires Init(s)
    ensures var e := Exec(s, events);
            && (forall a: Agent, b: Agent | Inside(PcOf(e, a)) && Inside(PcOf(e, b)) :: a == b)
            && (forall i | 0 <= i < |e.prints| :: e.prints[i].value == if e.prints[i].author.Kthread? then 50 else 100)
  {
    ExecInv(s, events);
  }

  /** With spin_lock_irqsave no callback runs, let alone spins, on the CPU of the holder. */
  lemma NoCallbackAboveHolder(s: State, events: seq<Event>, t: nat)
    requires Init(s) && s.irqsave
    requires t < |s.threads| && Exec(s, events).lock == Some(Kthread(t))
    ensures var e := Exec(s, events);
            && t < |e.threads| && e.threads[t].cpu < |e.cpus|
            && e.cpus[e.threads[t].cpu].callback.Idle? && Current(e, t)
  {
    ExecInv(s, events);
  }

  // ----- Deadlock

  function EventOf(a: Agent): Event {
    match a
    case Kthread(t) => RunThread(t)
    case Timer(c) => RunCallback(c)
  }

  ghost predicate SafeState(s: State) {
    LockInv(s) && CpuInv(s) && IrqInv(s) && OffForReason(s)
  }

  /** A busy agent is never suspended, so only a held lock can stop it. */
  lemma BusyAdvances(s: State, a: Agent)
    requires SafeState(s) && !PcOf(s, a).Idle? && (PcOf(s, a).Waiting? ==> s.lock.None?)
    ensures var s' := Step(s, EventOf(a));
            && SafeState(s') && Moves(s, s', a)
            && PcOf(s', a) == match PcOf(s, a) case Waiting => Locked case Locked => Assigned case Assigned => Printed case _ => Idle
  {
    StepMoves(s, EventOf(a));
    StepKeepsLockInv(s, EventOf(a));
    StepKeepsCpuInv(s, EventOf(a));
    StepKeepsIrqInv(s, EventOf(a));
    StepKeepsReason(s, EventOf(a));
  }

  function StepsLeft(pc: Pc): nat {
    match pc
    case Locked => 3
    case Assigned => 2
    case Printed => 1
    case _ => 0
  }

  /** `n` statements of one agent. */
  function Alone(s: State, a: Agent, n: nat): State
  {
    if n == 0 then s else Step(Alone(s, a, n - 1), EventOf(a))
  }

  lemma {:induction false} AloneIsRun(s: State, a: Agent, n: nat)
    ensures Exec(s, seq(n, _ => EventOf(a))) == Alone(s, a, n)
  {
    if n > 0 {
      AloneIsRun(s, a, n - 1);
      assert seq(n, _ => EventOf(a))[..n - 1] == seq(n - 1, _ => EventOf(a));
    } else {
      assert seq(0, _ => EventOf(a)) == [];
    }
  }

  /** The holder releases the lock within three of its own statements. */
  lemma HolderReleases(s: State, h: Agent)
    requires SafeState(s) && s.lock == Some(h)
    ensures var e := Alone(s, h, StepsLeft(PcOf(s, h)));
            && SafeState(e) && e.lock.None? && (forall b: Agent | b != h :: PcOf(e, b) == PcOf(s, b))
  {
    var n := StepsLeft(PcOf(s, h));
    BusyAdvances(s, h);
    var s1 := Alone(s, h, 1);
    assert s1 == Step(Alone(s, h, 0), EventOf(h));
    if n >= 2 {
      BusyAdvances(s1, h);
      var s2 := Alone(s, h, 2);
      if n == 3 {
        BusyAdvances(s2, h);
      }
    }
  }

  ghost predicate CanAcquire(s: State, a: Agent) {
    exists events: seq<Event> :: |events| <= 4 && Exec(s, events).lock == Some(a)
  }

  lemma WaiterAcquires(s: State, a: Agent)
    requires SafeState(s) && PcOf(s, a).Waiting?
    ensures CanAcquire(s, a)
  {
    if s.lock.None? {
      BusyAdvances(s, a);
      AloneIsRun(s, a, 1);
      assert Exec(s, seq(1, _ => EventOf(a))).lock == Some(a);
    } else {
      var h := s.lock.value;
      var n := StepsLeft(PcOf(s, h));
      HolderReleases(s, h);
      AloneIsRun(s, h, n);
      BusyAdvances(Alone(s, h, n), a);
      var run := seq(n, _ => EventOf(h)) + [EventOf(a)];
      assert run[..|run| - 1] == seq(n, _ => EventOf(h));
      assert Exec(s, run).lock == Some(a);
    }
  }

  // ----- Every agent can have its turn

  lemma {:induction false} ExecConcat(s: State, a: seq<Event>, b: seq<Event>)
    ensures Exec(s, a + b) == Exec(Exec(s, a), b)
  {
    if b == [] {
      assert a + b == a;
    } else {
      var n := |b| - 1;
      assert (a + b)[..|a + b| - 1] == a + b[..n];
      ExecConcat(s, a, b[..n]);
    }
  }

  /** What an event leaves alone, outside a migration: the CPUs and the number of each. */
  lemma StaysPut(s: State, a: Agent)
    ensures var s' := Step(s, EventOf(a));
            && |s'.threads| == |s.threads| && |s'.cpus| == |s.cpus|
            && (forall t | 0 <= t < |s.threads| :: s'.threads[t].cpu == s.threads[t].cpu)
  {
  }

  ghost predicate SamePlaces(s: State, e: State) {
    && |e.threads| == |s.threads| && |e.cpus| == |s.cpus|
    && (forall t | 0 <= t < |s.threads| :: e.threads[t].cpu == s.threads[t].cpu)
  }

  /** `a` has printed and is done; the lock is free and nobody else has moved. */
  ghost predicate HadTurn(s: State, e: State, a: Agent) {
    && SafeState(e) && e.lock.None? && PcOf(e, a).Idle? && SamePlaces(s, e)
    && (forall b: Agent | b != a :: PcOf(e, b) == PcOf(s, b))
    && e.prints == s.prints + [Print(a, Expected(a))]
  }

  /** A waiting agent acquires, assigns, prints and releases. */
  lemma {:induction false} TakesTurn(s: State, a: Agent)
    requires SafeState(s) && PcOf(s, a).Waiting? && s.lock.None?
    ensures HadTurn(s, Alone(s, a, 4), a)
  {
    BusyAdvances(s, a);
    StaysPut(s, a);
    var s1 := Alone(s, a, 1);
    assert s1 == Step(Alone(s, a, 0), EventOf(a));
    BusyAdvances(s1, a);
    StaysPut(s1, a);
    var s2 := Alone(s, a, 2);
    BusyAdvances(s2, a);
    StaysPut(s2, a);
    var s3 := Alone(s, a, 3);
    BusyAdvances(s3, a);
    StaysPut(s3, a);
  }

  /** The holder, if any, runs until it has released the lock. */
  lemma {:induction false} Released(s: State) returns (events: seq<Event>)
    requires SafeState(s)
    ensures |events| <= 3
    ensures var e := Exec(s, events);
            SafeState(e) && e.lock.None? && SamePlaces(s, e) && |e.prints| >= |s.prints|
  {
    events := [];
    if s.lock.Some? {
      var h := s.lock.value;
      var n := StepsLeft(PcOf(s, h));
      HolderReleases(s, h);
      AloneIsRun(s, h, n);
      AloneStaysPut(s, h, n);
      events := seq(n, _ => EventOf(h));
    }
  }

  lemma {:induction false} AloneStaysPut(s: State, a: Agent, n: nat)
    ensures SamePlaces(s, Alone(s, a, n)) && |Alone(s, a, n).prints| >= |s.prints|
  {
    if n > 0 {
      AloneStaysPut(s, a, n - 1);
      StaysPut(Alone(s, a, n - 1), a);
      StepMoves(Alone(s, a, n - 1), EventOf(a));
    }
  }

  /** Nobody holds the lock, and no agent of CPU `c` is waiting for it. */
  ghost predicate CpuQuiet(s: State, c: nat) {
    && SafeState(s) && s.lock.None? && c < |s.cpus| && s.cpus[c].callback.Idle? && !BusyThread(s, c)
  }

  /** From every safe state CPU `c` gets quiet within seven events. */
  lemma {:induction false} GetsQuiet(s: State, c: nat) returns (events: seq<Event>)
    requires SafeState(s) && c < |s.cpus|
    ensures |events| <= 7 && CpuQuiet(Exec(s, events), c) && SamePlaces(s, Exec(s, events)) && |Exec(s, events).prints| >= |s.prints|
  {
    events := Released(s);
    var e := Exec(s, events);
    if e.cpus[c].callback.Idle? && !BusyThread(e, c) {
    } else {
      var a := WaiterOn(e, c);
      TakesTurn(e, a);
      AloneIsRun(e, a, 4);
      ExecConcat(s, events, seq(4, _ => EventOf(a)));
      events := events + seq(4, _ => EventOf(a));
      TurnQuiets(e, Exec(s, events), a, c);
    }
  }

  /** The one agent on the CPU that is waiting. */
  lemma {:induction false} WaiterOn(s: State, c: nat) returns (a: Agent)
    requires SafeState(s) && s.lock.None? && c < |s.cpus| && !(s.cpus[c].callback.Idle? && !BusyThread(s, c))
    ensures PcOf(s, a).Waiting? && (a == Timer(c) || (a.Kthread? && a.t < |s.threads| && s.threads[a.t].cpu == c))
  {
    if s.cpus[c].callback.Idle? {
      var t :| 0 <= t < |s.threads| && s.threads[t].cpu == c && !s.threads[t].pc.Idle?;
      a := Kthread(t);
    } else {
      a := Timer(c);
    }
    assert !Inside(PcOf(s, a));
  }

  lemma {:induction false} TurnQuiets(s: State, e: State, a: Agent, c: nat)
    requires SafeState(s) && c < |s.cpus| && HadTurn(s, e, a) && PcOf(s, a).Waiting?
    requires a == Timer(c) || (a.Kthread? && a.t < |s.threads| && s.threads[a.t].cpu == c)
    ensures CpuQuiet(e, c)
  {
    assert PcOf(e, Timer(c)) == if a == Timer(c) then Idle else PcOf(s, Timer(c));
    forall t | 0 <= t < |s.threads| && s.threads[t].cpu == c
      ensures e.threads[t].pc.Idle?
    {
      assert PcOf(e, Kthread(t)) == if a == Kthread(t) then Idle else PcOf(s, Kthread(t));
    }
  }

  /** A thread that has been moved to a quiet CPU bars interrupts there, and nowhere else. */
  lemma {:induction false} BarsWhereItRuns(s: State, t: nat, c: nat)
    requires CpuQuiet(s, c) && t < |s.threads| && s.threads[t].pc.Idle?
    ensures var e := Exec(s, [Migrate(t, c), RunThread(t)]);
            && |e.threads| == |s.threads| && e.threads[t] == Thread(c, Waiting) && |e.cpus| == |s.cpus|
            && (forall d | 0 <= d < |s.cpus| :: e.cpus[d].irqOff <==> s.cpus[d].irqOff || d == c)
  {
    var run := [Migrate(t, c), RunThread(t)];
    assert run[..1] == [Migrate(t, c)];
    var s1 := Step(s, Migrate(t, c));
    assert Exec(s, run[..1]) == Step(Exec(s, []), Migrate(t, c));
    assert Current(s1, t);
    assert Exec(s, run) == Step(s1, RunThread(t));
  }

  /** `a` can print what it assigns, within 12 events. */
  ghost predicate CanPrint(s: State, a: Agent) {
    exists events: seq<Event> :: |events| <= 12 && PrintsLast(s, Exec(s, events), a)
  }

  ghost predicate PrintsLast(s: State, e: State, a: Agent) {
    |e.prints| > |s.prints| && e.prints[|e.prints| - 1] == Print(a, Expected(a))
  }

  /** On a quiet CPU its timer fires, or one of its threads begins, and has its turn. */
  lemma {:induction false} QuietPrints(s: State, c: nat, a: Agent, first: Event)
    requires CpuQuiet(s, c)
    requires || (a == Timer(c) && first == Fire(c))
             || (a.Kthread? && a.t < |s.threads| && s.threads[a.t].cpu == c && first == RunThread(a.t))
    ensures PrintsLast(s, Exec(s, [first] + seq(4, _ => EventOf(a))), a)
  {
    var s1 := Step(s, first);
    assert !s.cpus[c].irqOff;
    StepMoves(s, first);
    StepKeepsLockInv(s, first);
    StepKeepsCpuInv(s, first);
    StepKeepsIrqInv(s, first);
    StepKeepsReason(s, first);
    assert PcOf(s1, a).Waiting? && s1.lock.None? && s1.prints == s.prints;
    TakesTurn(s1, a);
    AloneIsRun(s1, a, 4);
    ExecConcat(s, [first], seq(4, _ => EventOf(a)));
    assert Exec(s, [first]) == Step(Exec(s, []), first);
  }

  /** With spin_lock_irqsave, from every reachable state the timer of any CPU can still fire,
      take the lock and print 100, and any thread take the lock and print 50. */
  lemma {:induction false} EveryAgentCanPrint(s: State, events: seq<Event>, a: Agent)
    requires Init(s) && s.irqsave
    requires var e := Exec(s, events); match a case Timer(c) => c < |e.cpus| case Kthread(t) => t < |e.threads|
    ensures CanPrint(Exec(s, events), a)
  {
    ExecInv(s, events);
    var e := Exec(s, events);
    var c := match a case Timer(c) => c case Kthread(t) => e.threads[t].cpu;
    var first := match a case Timer(c) => Fire(c) case Kthread(t) => RunThread(t);
    var before := GetsQuiet(e, c);
    QuietPrints(Exec(e, before), c, a, first);
    var turn := [first] + seq(4, _ => EventOf(a));
    ExecConcat(e, before, turn);
    assert |before + turn| <= 12 && PrintsLast(e, Exec(e, before + turn), a);
  }

  /** In every reachable state every waiting agent can still get the lock. */
  ghost predicate DeadlockFree(irqsave: bool) {
    forall s, events, a |
      Init(s) && s.irqsave == irqsave && PcOf(Exec(s, events), a).Waiting? :: CanAcquire(Exec(s, events), a)
  }

  /** A callback spins on the CPU of thread `t`, which holds the lock. */
  predicate Frozen(s: State, t: nat) {
    && t < |s.threads| && s.threads[t].cpu < |s.cpus|
    && s.lock == Some(Kthread(t)) && s.cpus[s.threads[t].cpu].callback.Waiting?
  }

  /** Among any number of threads and CPUs: the thread keeps the lock, the callback spins, and
      so no agent ever acquires the lock again. */
  lemma {:induction false} FrozenForever(s: State, t: nat, events: seq<Event>)
    requires LockInv(s) && Frozen(s, t)
    ensures var e := Exec(s, events);
            LockInv(e) && Frozen(e, t) && e.threads[t] == s.threads[t]
  {
    if events != [] {
      FrozenForever(s, t, events[..|events| - 1]);
      StepStaysFrozen(Exec(s, events[..|events| - 1]), t, events[|events| - 1]);
    }
  }

  lemma StepStaysFrozen(s: State, t: nat, e: Event)
    requires LockInv(s) && Frozen(s, t)
    ensures LockInv(Step(s, e)) && Frozen(Step(s, e), t) && Step(s, e).threads[t] == s.threads[t]
  {
    StepKeepsLockInv(s, e);
    assert Inside(PcOf(s, Kthread(t))) && !Current(s, t);
    assert Inside(PcOf(s, Actor(e))) ==> Actor(e) == Kthread(t);
  }

  /** Without irqsave: the thread takes the lock and the timer fires on its CPU. */
  lemma PlainLockFreezes(s: State)
    requires s == State(false, None, 0, [Thread(0, Idle)], [Cpu(false, Idle)], [])
    ensures var e := Exec(s, [RunThread(0), RunThread(0), Fire(0)]);
            Init(s) && Frozen(e, 0) && e.threads == [Thread(0, Locked)]
  {
    var run := [RunThread(0), RunThread(0), Fire(0)];
    assert run[..1] == [RunThread(0)] && run[..2][..1] == [RunThread(0)] && run[..2] == [RunThread(0), RunThread(0)];
    var s1 := Exec(s, [RunThread(0)]);
    assert s1 == Step(Exec(s, []), RunThread(0));
    assert s1.threads == [Thread(0, Waiting)] && s1.cpus == [Cpu(false, Idle)];
    var s2 := Exec(s, run[..2]);
    assert s2 == Step(s1, RunThread(0));
    assert s2.threads == [Thread(0, Locked)] && s2.cpus == [Cpu(false, Idle)];
    assert Exec(s, run) == Step(s2, Fire(0));
  }

  /** The lock is free of deadlock, on any number of CPUs, exactly because the threads take it
      with spin_lock_irqsave. */
  lemma DeadlockFreeExactly(irqsave: bool)
    ensures DeadlockFree(irqsave) <==> irqsave
  {
    if irqsave {
      forall s, events, a | Init(s) && s.irqsave == irqsave && PcOf(Exec(s, events), a).Waiting?
        ensures CanAcquire(Exec(s, events), a)
      {
        ExecInv(s, events);
        WaiterAcquires(Exec(s, events), a);
      }
    } else {
      var s := State(false, None, 0, [Thread(0, Idle)], [Cpu(false, Idle)], []);
      PlainLockFreezes(s);
      ExecInv(s, [RunThread(0), RunThread(0), Fire(0)]);
      var events := [RunThread(0), RunThread(0), Fire(0)];
      var f := Exec(s, events);
      assert PcOf(f, Timer(0)).Waiting?;
      forall later: seq<Event>
        ensures Exec(f, later).lock != Some(Timer(0))
      {
        FrozenForever(f, 0, later);
      }
      assert !CanAcquire(f, Timer(0));
    }
  }
}
