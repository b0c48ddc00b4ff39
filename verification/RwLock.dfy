/** rwspinlock_module.c: threads that add 10 under write_lock and threads that print under
    read_lock, any number of each.  `completed` and `log` are history. */
module RwLock {
  import opened Kernel
  import opened Tally

  datatype Thread =
    | WriterIdle | WriterIn | WriterLoaded(value: int) | WriterStored | WriterPrinted
    | ReaderIdle | ReaderIn | ReaderPrinted

  datatype Printed = Printed(value: int, completed: nat)

  /** The lock is a count of readers or one writer. */
  datatype State = State(readers: nat, writer: Option<nat>, globalVariable: int, threads: seq<Thread>,
                         completed: nat, log: seq<Printed>)

  function Set(s: State, t: nat, th: Thread): State
    requires t < |s.threads|
  {
    s.(threads := s.threads[t := th])
  }

  function Print(s: State): seq<Printed> {
    s.log + [Printed(s.globalVariable, s.completed)]
  }

  function Step(s: State, t: nat): State {
    if |s.threads| <= t then s else
    match s.threads[t]
    case WriterIdle => if s.writer.None? && s.readers == 0 then Set(s, t, WriterIn).(writer := Some(t)) else s
    case WriterIn => Set(s, t, WriterLoaded(s.globalVariable))
    case WriterLoaded(v) => Set(s, t, WriterStored).(globalVariable := Int32(v + 10), completed := s.completed + 1)
    case WriterStored => Set(s, t, WriterPrinted).(log := Print(s))
    case WriterPrinted => Set(s, t, WriterIdle).(writer := None)
    case ReaderIdle => if s.writer.None? then Set(s, t, ReaderIn).(readers := s.readers + 1) else s
    case ReaderIn => Set(s, t, ReaderPrinted).(log := Print(s))
    case ReaderPrinted => if s.readers > 0 then Set(s, t, ReaderIdle).(readers := s.readers - 1) else s
  }

  class RwModule {
    var readers: nat
    var writer: Option<nat>
    var globalVariable: int
    var threads: seq<Thread>
    var completed: nat
    var log: seq<Printed>

    ghost function Snapshot(): State
      reads this
    {
      State(readers, writer, globalVariable, threads, completed, log)
    }

    constructor (roles: seq<Thread>)
      requires forall t | 0 <= t < |roles| :: roles[t] in {WriterIdle, ReaderIdle}
      ensures Init(Snapshot()) && threads == roles
    {
      readers, writer, globalVariable, threads, completed, log := 0, None, 0, roles, 0, [];
    }

    /** A statement of thread_function (the writer). */
    method WriterStep(t: nat)
      requires t < |threads| && !threads[t].ReaderIdle? && !threads[t].ReaderIn? && !threads[t].ReaderPrinted?
      modifies this
      ensures Snapshot() == Step(old(Snapshot()), t)
    {
      match threads[t] {
        case WriterIdle =>
          if writer.None? && readers == 0 {
            writer := Some(t);
            threads := threads[t := WriterIn];
          }
        case WriterIn =>
          threads := threads[t := WriterLoaded(globalVariable)];
        case WriterLoaded(v) =>
          globalVariable := Int32(v + 10);
          completed := completed + 1;
          threads := threads[t := WriterStored];
        case WriterStored =>
          log := log + [Printed(globalVariable, completed)];
          threads := threads[t := WriterPrinted];
        case WriterPrinted =>
          writer := None;
          threads := threads[t := WriterIdle];
      }
    }

    /** A statement of thread_function1 or thread_function2 (the readers). */
    method ReaderStep(t: nat)
      requires t < |threads| && (threads[t].ReaderIdle? || threads[t].ReaderIn? || threads[t].ReaderPrinted?)
      modifies this
      ensures Snapshot() == Step(old(Snapshot()), t)
    {
      match threads[t] {
        case ReaderIdle =>
          if writer.None? {
            readers := readers + 1;
            threads := threads[t := ReaderIn];
          }
        case ReaderIn =>
          log := log + [Printed(globalVariable, completed)];
          threads := threads[t := ReaderPrinted];
        case ReaderPrinted =>
          if readers > 0 {
            readers := readers - 1;
            threads := threads[t := ReaderIdle];
          }
      }
    }
  }

  function Exec(s: State, schedule: seq<nat>): State {
    if schedule == [] then s
    else Step(Exec(s, schedule[..|schedule| - 1]), schedule[|schedule| - 1])
  }

  ghost predicate Init(s: State) {
    && s.readers == 0 && s.writer.None? && s.globalVariable == 0 && s.completed == 0 && s.log == []
    && (forall t | 0 <= t < |s.threads| :: s.threads[t] in {WriterIdle, ReaderIdle})
  }

  predicate Writing(t: Thread) {
    t.WriterIn? || t.WriterLoaded? || t.WriterStored? || t.WriterPrinted?
  }

  function Reading(t: Thread): nat {
    if t.ReaderIn? || t.ReaderPrinted? then 1 else 0
  }

  ghost predicate LockInv(s: State) {
    && (forall t | 0 <= t < |s.threads| && Writing(s.threads[t]) :: s.writer == Some(t))
    && (s.writer.Some? ==> s.writer.value < |s.threads| && Writing(s.threads[s.writer.value]) && s.readers == 0)
    && s.readers == Sum(s.threads, Reading)
  }

  ghost predicate ValueInv(s: State) {
    && s.globalVariable == Int32(10 * s.completed)
    && (forall t | 0 <= t < |s.threads| && s.threads[t].WriterLoaded? :: s.threads[t].value == s.globalVariable)
  }

  ghost predicate LogInv(s: State) {
    && (forall i | 0 <= i < |s.log| :: s.log[i].value == Int32(10 * s.log[i].completed) && s.log[i].completed <= s.completed)
    && (forall i, j | 0 <= i < j < |s.log| :: s.log[i].completed <= s.log[j].completed)
  }

  ghost predicate Inv(s: State) {
    LockInv(s) && ValueInv(s) && LogInv(s)
  }

  lemma StepKeepsLockInv(s: State, t: nat)
    requires LockInv(s)
    ensures LockInv(Step(s, t))
  {
    if t < |s.threads| {
      var s' := Step(s, t);
      SumUpdate(s.threads, t, s'.threads[t], Reading);
      assert s'.threads == s.threads[t := s'.threads[t]];
      SumAtLeast(s.threads, t, Reading);
    }
  }

  lemma StepKeepsValueInv(s: State, t: nat)
    requires LockInv(s) && ValueInv(s)
    ensures ValueInv(Step(s, t))
  {
    NextTen(s.completed);
  }

  lemma StepKeepsLogInv(s: State, t: nat)
    requires ValueInv(s) && LogInv(s)
    ensures LogInv(Step(s, t))
  {
  }

  lemma StepKeepsInv(s: State, t: nat)
    requires Inv(s)
    ensures Inv(Step(s, t))
  {
    StepKeepsLockInv(s, t);
    StepKeepsValueInv(s, t);
    StepKeepsLogInv(s, t);
  }

  lemma NextTen(n: nat)
    ensures Int32(Int32(10 * n) + 10) == Int32(10 * (n + 1))
  {
  }

  lemma {:induction false} ExecInv(s: State, schedule: seq<nat>)
    requires Init(s)
    ensures Inv(Exec(s, schedule)) && |Exec(s, schedule).threads| == |s.threads|
  {
    if schedule == [] {
      SumZero(s.threads, Reading);
    } else {
      ExecInv(s, schedule[..|schedule| - 1]);
      StepKeepsInv(Exec(s, schedule[..|schedule| - 1]), schedule[|schedule| - 1]);
    }
  }

  /** A writer is never inside together with a reader or another writer, and the lock counts
      the readers inside. */
  lemma Exclusion(s: State, schedule: seq<nat>, t: nat, u: nat)
    requires Init(s) && t < |s.threads| && u < |s.threads| && t != u
    ensures var e := Exec(s, schedule);
            && |e.threads| == |s.threads| && e.readers == Sum(e.threads, Reading)
            && (Writing(e.threads[t]) ==> !Writing(e.threads[u]) && Reading(e.threads[u]) == 0)
  {
    ExecInv(s, schedule);
    SumAtLeast(Exec(s, schedule).threads, u, Reading);
  }

  /** Every printed value is ten times the writes completed at that moment, and never smaller
      than one printed before, exactly as long as the product fits an int. */
  lemma PrintsTenTimesWrites(s: State, schedule: seq<nat>)
    requires Init(s)
    ensures var log := Exec(s, schedule).log;
            && (forall i | 0 <= i < |log| :: log[i].value == 10 * log[i].completed <==> 10 * log[i].completed < 0x8000_0000)
            && (forall i, j | 0 <= i < j < |log| && 10 * log[j].completed < 0x8000_0000 :: log[i].value <= log[j].value)
  {
    ExecInv(s, schedule);
    var log := Exec(s, schedule).log;
    forall i, j | 0 <= i < j < |log| && 10 * log[j].completed < 0x8000_0000
      ensures log[i].value <= log[j].value
    {
      assert log[i].completed <= log[j].completed;
    }
  }

  /** One step of every reader below `n`. */
  function EnterReaders(threads: seq<Thread>, n: nat): seq<nat>
    requires n <= |threads|
  {
    if n == 0 then []
    else EnterReaders(threads, n - 1) + if threads[n - 1].ReaderIdle? then [n - 1] else []
  }

  /** The readers below `n` have entered, nothing else has happened to a thread. */
  ghost predicate Entered(s: State, e: State, n: nat) {
    && e.writer.None? && |e.threads| == |s.threads|
    && forall t | 0 <= t < |s.threads| :: e.threads[t] == if t < n && s.threads[t].ReaderIdle? then ReaderIn else s.threads[t]
  }

  lemma OneEnters(s: State, e: State, n: nat)
    requires n < |s.threads| && s.threads[n].ReaderIdle? && Entered(s, e, n)
    ensures Entered(s, Step(e, n), n + 1)
  {
  }

  lemma {:induction false} ReadersEnter(s: State, n: nat)
    requires Init(s) && n <= |s.threads|
    ensures Entered(s, Exec(s, EnterReaders(s.threads, n)), n)
  {
    if n > 0 {
      ReadersEnter(s, n - 1);
      var before := EnterReaders(s.threads, n - 1);
      if s.threads[n - 1].ReaderIdle? {
        assert (before + [n - 1])[..|before|] == before;
        OneEnters(s, Exec(s, before), n - 1);
      } else {
        assert before + [] == before;
      }
    }
  }

  /** Readers overlap: in any module, writers or not, all readers can be inside at once. */
  lemma ReadersOverlap(s: State)
    requires Init(s)
    ensures exists schedule :: AllReadersIn(s, Exec(s, schedule))
  {
    ReadersEnter(s, |s.threads|);
    assert AllReadersIn(s, Exec(s, EnterReaders(s.threads, |s.threads|)));
  }

  ghost predicate AllReadersIn(s: State, e: State) {
    |e.threads| == |s.threads| && forall t | 0 <= t < |s.threads| && s.threads[t].ReaderIdle? :: e.threads[t].ReaderIn?
  }

  // ----- Every thread can have its turn

  lemma {:induction false} ExecConcat(s: State, a: seq<nat>, b: seq<nat>)
    ensures Exec(s, a + b) == Exec(Exec(s, a), b)
  {
    if b == [] {
      assert a + b == a;
    } else {
      var n := |b| - 1;
      assert (a + b)[..|a + b| - 1] == a + b[..n];
      ExecConcat(s, a, b[..n]);
    }
  }

  function StepsLeft(t: Thread): nat {
    match t
    case WriterIn => 4
    case WriterLoaded(_) => 3
    case WriterStored => 2
    case WriterPrinted => 1
    case ReaderIn => 2
    case ReaderPrinted => 1
    case _ => 0
  }

  /** Nobody is inside, and the lock is free. */
  predicate Quiet(s: State) {
    s.writer.None? && s.readers == 0 && forall t | 0 <= t < |s.threads| :: s.threads[t].WriterIdle? || s.threads[t].ReaderIdle?
  }

  lemma {:induction false} InsideMoves(s: State, t: nat)
    requires Inv(s) && t < |s.threads| && StepsLeft(s.threads[t]) > 0
    ensures Sum(Step(s, t).threads, StepsLeft) + 1 == Sum(s.threads, StepsLeft)
  {
    SumAtLeast(s.threads, t, Reading);
    var s' := Step(s, t);
    SumUpdate(s.threads, t, s'.threads[t], StepsLeft);
    assert s'.threads == s.threads[t := s'.threads[t]];
  }

  /** Both run the writer's loop, or both a reader's. */
  predicate SameRole(a: Thread, b: Thread) {
    IsReader(a) == IsReader(b)
  }

  predicate IsReader(t: Thread) {
    t.ReaderIdle? || t.ReaderIn? || t.ReaderPrinted?
  }

  ghost predicate SameRoles(s: State, e: State) {
    |e.threads| == |s.threads| && forall t | 0 <= t < |s.threads| :: SameRole(s.threads[t], e.threads[t])
  }

  lemma StepKeepsRoles(s: State, t: nat)
    ensures SameRoles(s, Step(s, t)) && Step(s, t).completed >= s.completed && |Step(s, t).log| >= |s.log|
  {
  }

  lemma {:induction false} GetsQuiet(s: State) returns (more: seq<nat>)
    requires Inv(s)
    ensures var e := Exec(s, more);
            Inv(e) && Quiet(e) && SameRoles(s, e) && e.completed >= s.completed && |e.log| >= |s.log|
    decreases Sum(s.threads, StepsLeft)
  {
    more := [];
    if t :| 0 <= t < |s.threads| && StepsLeft(s.threads[t]) > 0 {
      InsideMoves(s, t);
      StepKeepsInv(s, t);
      StepKeepsRoles(s, t);
      var rest := GetsQuiet(Step(s, t));
      more := [t] + rest;
      ExecConcat(s, [t], rest);
      assert Exec(s, [t]) == Step(Exec(s, []), t);
    } else {
      assert forall t | 0 <= t < |s.threads| :: StepsLeft(s.threads[t]) == 0;
      SumZero(s.threads, Reading);
    }
  }

  /** `n` statements of one thread. */
  function Alone(s: State, t: nat, n: nat): State {
    if n == 0 then s else Step(Alone(s, t, n - 1), t)
  }

  function Only(t: nat, n: nat): seq<nat> {
    if n == 0 then [] else Only(t, n - 1) + [t]
  }

  lemma {:induction false} AloneIsRun(s: State, t: nat, n: nat)
    ensures Exec(s, Only(t, n)) == Alone(s, t, n)
  {
    if n > 0 {
      AloneIsRun(s, t, n - 1);
      assert Only(t, n)[..|Only(t, n)| - 1] == Only(t, n - 1);
    }
  }

  /** From a quiet state a writer adds 10 and prints the sum, a reader prints the value, and
      the state is quiet again. */
  lemma {:induction false} Turn(s: State, t: nat)
    requires Quiet(s) && t < |s.threads|
    ensures s.threads[t].WriterIdle? ==>
              var v := Int32(s.globalVariable + 10);
              Alone(s, t, 5) == s.(globalVariable := v, completed := s.completed + 1, log := s.log + [Printed(v, s.completed + 1)])
    ensures s.threads[t].ReaderIdle? ==>
              Alone(s, t, 3) == s.(log := s.log + [Printed(s.globalVariable, s.completed)])
  {
    assert Alone(s, t, 1) == Step(Alone(s, t, 0), t) && Alone(s, t, 2) == Step(Alone(s, t, 1), t);
    assert Alone(s, t, 3) == Step(Alone(s, t, 2), t) && Alone(s, t, 4) == Step(Alone(s, t, 3), t);
    assert Alone(s, t, 5) == Step(Alone(s, t, 4), t);
    if s.threads[t].WriterIdle? {
      assert Alone(s, t, 5).threads == s.threads;
    } else {
      assert Alone(s, t, 3).threads == s.threads;
    }
  }

  /** `e` comes after `s` and ends with a line of thread `t`, of a write of its own for a writer. */
  ghost predicate HasTurn(s: State, e: State, t: nat) {
    && Quiet(e) && |e.log| > |s.log| && t < |s.threads|
    && e.log[|e.log| - 1] == Printed(Int32(10 * e.completed), e.completed)
    && (if IsReader(s.threads[t]) then e.completed >= s.completed else e.completed > s.completed)
  }

  /** From every reachable state every thread, writer or reader, can still get in and finish. */
  lemma {:induction false} EveryThreadGetsIn(s: State, schedule: seq<nat>, t: nat)
    requires Init(s) && t < |s.threads|
    ensures exists more :: HasTurn(Exec(s, schedule), Exec(s, schedule + more), t)
  {
    ExecInv(s, schedule);
    var e := Exec(s, schedule);
    var before := GetsQuiet(e);
    var q := Exec(e, before);
    var n := if q.threads[t].WriterIdle? then 5 else 3;
    AloneIsRun(q, t, n);
    ExecConcat(e, before, Only(t, n));
    ExecConcat(s, schedule, before + Only(t, n));
    TurnFollows(e, q, t);
    assert HasTurn(e, Exec(s, schedule + (before + Only(t, n))), t);
  }

  lemma {:induction false} TurnFollows(e: State, q: State, t: nat)
    requires Inv(q) && Quiet(q) && SameRoles(e, q) && q.completed >= e.completed && |q.log| >= |e.log| && t < |e.threads|
    ensures HasTurn(e, Alone(q, t, if q.threads[t].WriterIdle? then 5 else 3), t)
  {
    assert SameRole(e.threads[t], q.threads[t]);
    Turn(q, t);
    NextTen(q.completed);
  }
}
