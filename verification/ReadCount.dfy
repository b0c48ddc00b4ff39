/**
 The two counting threads of mutex_module.c and without_mutex_module.c, for any number
 of threads.  The two files differ only in the mutex, so one machine runs both: with
 `locked` set, an iteration holds the mutex; without it the same statements run bare.

 `read_count++` is a load and a store.  `shadow` is the count without the 32-bit wrap,
 history that no step looks at.
 */
module ReadCount {
  import opened Kernel
  import opened Tally

  datatype Pc =
    | Idle                                 // at the loop test
    | Ready                                // mutex taken (if there is one)
    | Loaded(value: nat, shadow: nat)      // old value in a register
    | Stored                               // new value written, not yet printed
    | Printed                              // about to unlock (if there is a mutex)

  /** `quota` is the number of iterations the thread runs before it is stopped. */
  datatype Thread = Thread(pc: Pc, stores: nat, quota: nat)

  datatype State = State(locked: bool, lock: Lock, readCount: nat, shadow: nat,
                         threads: seq<Thread>, log: seq<nat>)

  function Step(s: State, t: nat): State {
    if |s.threads| <= t then s else
    var th := s.threads[t];
    match th.pc
    case Idle =>
      if th.stores < th.quota && (s.locked ==> s.lock.Free?) then
        s.(lock := if s.locked then HeldBy(t) else s.lock, threads := s.threads[t := th.(pc := Ready)])
      else s
    case Ready =>
      s.(threads := s.threads[t := th.(pc := Loaded(s.readCount, s.shadow))])
    case Loaded(v, w) =>
      s.(readCount := (v + 1) % UINT_MODULUS, shadow := w + 1,
         threads := s.threads[t := th.(pc := Stored, stores := th.stores + 1)])
    case Stored =>
      s.(log := s.log + [s.readCount], threads := s.threads[t := th.(pc := Printed)])
    case Printed =>
      s.(lock := if s.locked then Free else s.lock, threads := s.threads[t := th.(pc := Idle)])
  }

  /** The module's variables, updated in place; every thread runs the same loop body. */
  class CountingModule {
    const locked: bool
    var lock: Lock
    var readCount: nat
    var shadow: nat
    var threads: seq<Thread>
    var log: seq<nat>

    ghost function Snapshot(): State
      reads this
    {
      State(locked, lock, readCount, shadow, threads, log)
    }

    constructor (locked: bool, quotas: seq<nat>)
      ensures Snapshot() == Start(locked, quotas)
    {
      this.locked := locked;
      lock, readCount, shadow, log := Free, 0, 0, [];
      threads := seq(|quotas|, t requires 0 <= t < |quotas| => Thread(Idle, 0, quotas[t]));
    }

    method ThreadStep(t: nat)
      requires t < |threads|
      modifies this
      ensures Snapshot() == Step(old(Snapshot()), t)
    {
      var th := threads[t];
      match th.pc {
        case Idle =>
          if th.stores < th.quota {
            if !locked {
              threads := threads[t := th.(pc := Ready)];
            } else if lock.Free? {
              lock := HeldBy(t);
              threads := threads[t := th.(pc := Ready)];
            }
          }
        case Ready =>
          threads := threads[t := th.(pc := Loaded(readCount, shadow))];
        case Loaded(v, w) =>
          readCount := (v + 1) % UINT_MODULUS;
          shadow := w + 1;
          threads := threads[t := th.(pc := Stored, stores := th.stores + 1)];
        case Stored =>
          log := log + [readCount];
          threads := threads[t := th.(pc := Printed)];
        case Printed =>
          if locked {
            lock := Free;
          }
          threads := threads[t := th.(pc := Idle)];
      }
    }
  }

  function Start(locked: bool, quotas: seq<nat>): State {
    State(locked, Free, 0, 0, seq(|quotas|, t requires 0 <= t < |quotas| => Thread(Idle, 0, quotas[t])), [])
  }

  function Exec(s: State, schedule: seq<nat>): State {
    if schedule == [] then s
    else Step(Exec(s, schedule[..|schedule| - 1]), schedule[|schedule| - 1])
  }

  /** Every thread has run all its iterations and is back at its loop test. */
  predicate Complete(s: State) {
    forall t | 0 <= t < |s.threads| :: s.threads[t].pc.Idle? && s.threads[t].stores == s.threads[t].quota
  }

  function Stores(t: Thread): nat { t.stores }

  function Same(n: nat): nat { n }

  ghost predicate SameQuotas(s: State, quotas: seq<nat>) {
    |s.threads| == |quotas| && forall t | 0 <= t < |quotas| :: s.threads[t].quota == quotas[t]
  }

  // ----- Facts that need no mutex

  ghost predicate ThreadInv(s: State, t: nat)
    requires t < |s.threads|
  {
    var th := s.threads[t];
    && th.stores <= th.quota
    && (th.pc.Ready? || th.pc.Loaded? ==> th.stores < th.quota)
    && (th.pc.Loaded? ==>
          && th.pc.value == th.pc.shadow % UINT_MODULUS
          && th.pc.shadow <= Sum(s.threads, Stores)
          && (th.stores >= 1 ==> th.pc.shadow >= 1))
    && (th.stores >= 1 ==> s.shadow >= 1)
  }

  ghost predicate Inv(s: State) {
    && s.readCount == s.shadow % UINT_MODULUS
    && s.shadow <= Sum(s.threads, Stores)
    && Low(s)
    && (forall t | 0 <= t < |s.threads| :: ThreadInv(s, t))
  }

  lemma {:induction false} StepKeepsInv(s: State, t: nat)
    requires Inv(s)
    ensures Inv(Step(s, t))
  {
    if t < |s.threads| {
      var th := s.threads[t];
      var s' := Step(s, t);
      assert ThreadInv(s, t);
      SumUpdate(s.threads, t, s'.threads[t], Stores);
      assert s'.threads == s.threads[t := s'.threads[t]];
      if th.pc.Loaded? {
        Increment(th.pc.shadow, UINT_MODULUS);
      }
      forall u | 0 <= u < |s'.threads|
        ensures ThreadInv(s', u)
      {
        StepKeepsThreadInv(s, t, u);
      }
      KeepsLow(s, t);
    }
  }

  lemma {:induction false} StepKeepsThreadInv(s: State, t: nat, u: nat)
    requires Inv(s) && t < |s.threads| && u < |s.threads|
    ensures ThreadInv(Step(s, t), u)
  {
    var s' := Step(s, t);
    assert ThreadInv(s, t) && ThreadInv(s, u);
    SumUpdate(s.threads, t, s'.threads[t], Stores);
    assert s'.threads == s.threads[t := s'.threads[t]];
  }

  /** A count below two is explained by a thread that has stored at most once. */
  ghost predicate Low(s: State) {
    || s.shadow >= 2
    || (forall t | 0 <= t < |s.threads| :: s.threads[t].stores == 0)
    || (exists t :: 0 <= t < |s.threads| && s.threads[t].stores == 1)
  }

  lemma KeepsLow(s: State, t: nat)
    requires t < |s.threads| && ThreadInv(s, t) && Low(s)
    ensures Low(Step(s, t))
  {
    var s' := Step(s, t);
    if s.threads[t].pc.Loaded? {
      assert s'.threads[t].stores == s.threads[t].stores + 1;
    } else {
      assert s'.shadow == s.shadow;
      assert forall u | 0 <= u < |s.threads| :: s'.threads[u].stores == s.threads[u].stores;
    }
  }

  lemma {:induction false} ExecInv(s: State, schedule: seq<nat>)
    requires Inv(s)
    ensures Inv(Exec(s, schedule))
    ensures var e := Exec(s, schedule);
            && e.locked == s.locked && |e.threads| == |s.threads|
            && (forall t | 0 <= t < |s.threads| :: e.threads[t].quota == s.threads[t].quota)
  {
    if schedule != [] {
      var before := schedule[..|schedule| - 1];
      ExecInv(s, before);
      StepKeepsInv(Exec(s, before), schedule[|schedule| - 1]);
    }
  }

  lemma StartInv(locked: bool, quotas: seq<nat>)
    ensures Inv(Start(locked, quotas))
  {
    SumZero(Start(locked, quotas).threads, Stores);
  }

  lemma {:induction false} SumOfQuotas(threads: seq<Thread>, quotas: seq<nat>)
    requires |threads| == |quotas|
    requires forall t | 0 <= t < |quotas| :: threads[t].stores == quotas[t]
    ensures Sum(threads, Stores) == Sum(quotas, Same)
  {
    if quotas != [] {
      SumOfQuotas(threads[..|threads| - 1], quotas[..|quotas| - 1]);
    }
  }

  lemma Reached(locked: bool, quotas: seq<nat>, schedule: seq<nat>)
    ensures var e := Exec(Start(locked, quotas), schedule); Inv(e) && e.locked == locked && SameQuotas(e, quotas)
  {
    StartInv(locked, quotas);
    ExecInv(Start(locked, quotas), schedule);
  }

  ghost predicate FinalBounds(e: State, quotas: seq<nat>) {
    && e.readCount == e.shadow % UINT_MODULUS
    && e.shadow <= Sum(quotas, Same)
    && ((exists t :: 0 <= t < |quotas| && quotas[t] >= 1) ==> e.shadow >= 1)
    && (|quotas| > 0 && (forall t | 0 <= t < |quotas| :: quotas[t] >= 2) ==> e.shadow >= 2)
  }

  lemma CompleteBounds(e: State, quotas: seq<nat>)
    requires Inv(e) && SameQuotas(e, quotas) && Complete(e)
    ensures FinalBounds(e, quotas)
  {
    assert forall t | 0 <= t < |quotas| :: ThreadInv(e, t) && e.threads[t].stores == quotas[t];
    SumOfQuotas(e.threads, quotas);
    if |quotas| > 0 && forall t | 0 <= t < |quotas| :: quotas[t] >= 2 {
      assert e.threads[0].stores >= 2;
    }
  }

  /** With or without the mutex: the count never exceeds the iterations run, and when all
      threads are done it is at least 1, and at least 2 if each ran twice or more. */
  lemma FinalCountBounds(locked: bool, quotas: seq<nat>, schedule: seq<nat>)
    requires Complete(Exec(Start(locked, quotas), schedule))
    ensures FinalBounds(Exec(Start(locked, quotas), schedule), quotas)
  {
    Reached(locked, quotas, schedule);
    CompleteBounds(Exec(Start(locked, quotas), schedule), quotas);
  }

  // ----- With the mutex: an atomic counter

  predicate Inside(pc: Pc) { !pc.Idle? }

  ghost predicate LockedInv(s: State) {
    && s.locked
    && (s.lock.HeldBy? ==> s.lock.thread < |s.threads| && Inside(s.threads[s.lock.thread].pc))
    && (forall t | 0 <= t < |s.threads| && Inside(s.threads[t].pc) :: s.lock == HeldBy(t))
    && s.shadow == Sum(s.threads, Stores)
    && s.readCount == s.shadow % UINT_MODULUS
    && |s.log| == s.shadow - (if s.lock.HeldBy? && s.threads[s.lock.thread].pc.Stored? then 1 else 0)
    && (s.lock.HeldBy? && s.threads[s.lock.thread].pc.Loaded? ==>
          s.threads[s.lock.thread].pc == Loaded(s.readCount, s.shadow))
    && (forall i | 0 <= i < |s.log| :: s.log[i] == (i + 1) % UINT_MODULUS)
  }

  lemma StepKeepsLockedInv(s: State, t: nat)
    requires LockedInv(s)
    ensures LockedInv(Step(s, t))
  {
    if t < |s.threads| {
      var s' := Step(s, t);
      SumUpdate(s.threads, t, s'.threads[t], Stores);
      assert s'.threads == s.threads[t := s'.threads[t]];
      Increment(s.shadow, UINT_MODULUS);
    }
  }

  lemma {:induction false} ExecLockedInv(s: State, schedule: seq<nat>)
    requires LockedInv(s)
    ensures LockedInv(Exec(s, schedule))
  {
    if schedule != [] {
      ExecLockedInv(s, schedule[..|schedule| - 1]);
      StepKeepsLockedInv(Exec(s, schedule[..|schedule| - 1]), schedule[|schedule| - 1]);
    }
  }

  /** Under the mutex at most one thread is inside, the i-th section prints i modulo 2^32,
      and the final count is the number of iterations modulo 2^32. */
  lemma MutexCountsEveryIteration(quotas: seq<nat>, schedule: seq<nat>)
    ensures var e := Exec(Start(true, quotas), schedule);
            && (forall t, u | 0 <= t < |e.threads| && 0 <= u < |e.threads| && Inside(e.threads[t].pc) && Inside(e.threads[u].pc) :: t == u)
            && (forall i | 0 <= i < |e.log| :: e.log[i] == (i + 1) % UINT_MODULUS)
            && (Complete(e) ==> |e.log| == Sum(quotas, Same) && e.readCount == Sum(quotas, Same) % UINT_MODULUS)
  {
    var s := Start(true, quotas);
    SumZero(s.threads, Stores);
    ExecLockedInv(s, schedule);
    Reached(true, quotas, schedule);
    var e := Exec(s, schedule);
    if Complete(e) {
      SumOfQuotas(e.threads, quotas);
    }
  }

  // ----- Every run can be finished

  /** How many statements a thread still has before it. */
  function Left(th: Thread): nat {
    var k := if th.stores < th.quota then 5 * (th.quota - th.stores) else 0;
    match th.pc
    case Idle => k
    case Ready => if k > 0 then k - 1 else 0
    case Loaded(_, _) => if k > 0 then k - 2 else 0
    case Stored => k + 2
    case Printed => k + 1
  }

  predicate CanMove(s: State, t: nat) {
    t < |s.threads| && Left(s.threads[t]) > 0 && (s.threads[t].pc.Idle? && s.locked ==> s.lock.Free?)
  }

  lemma {:induction false} MoveCounts(s: State, t: nat)
    requires Inv(s) && CanMove(s, t)
    ensures Sum(Step(s, t).threads, Left) + 1 == Sum(s.threads, Left)
  {
    var s' := Step(s, t);
    assert ThreadInv(s, t);
    SumUpdate(s.threads, t, s'.threads[t], Left);
    assert s'.threads == s.threads[t := s'.threads[t]];
  }

  /** The holder of the mutex can move; with nobody inside, anyone with iterations left. */
  lemma SomeoneMoves(s: State) returns (t: nat)
    requires Inv(s) && (s.locked ==> LockedInv(s)) && !Complete(s)
    ensures CanMove(s, t)
  {
    if s.locked && s.lock.HeldBy? {
      t := s.lock.thread;
      assert ThreadInv(s, t);
    } else {
      t :| 0 <= t < |s.threads| && !(s.threads[t].pc.Idle? && s.threads[t].stores == s.threads[t].quota);
      assert ThreadInv(s, t);
    }
  }

  lemma {:induction false} Finishes(s: State) returns (more: seq<nat>)
    requires Inv(s) && (s.locked ==> LockedInv(s))
    ensures Complete(Exec(s, more))
    decreases Sum(s.threads, Left)
  {
    more := [];
    if !Complete(s) {
      var t := SomeoneMoves(s);
      MoveCounts(s, t);
      StepKeepsInv(s, t);
      if s.locked {
        StepKeepsLockedInv(s, t);
      }
      var rest := Finishes(Step(s, t));
      more := [t] + rest;
      ExecConcat(s, [t], rest);
      assert Exec(s, [t]) == Step(Exec(s, []), t);
    }
  }

  /** Some schedule ends, all iterations run, with this count. */
  ghost predicate CanEndAt(locked: bool, quotas: seq<nat>, count: nat) {
    exists schedule :: Complete(Exec(Start(locked, quotas), schedule)) && Exec(Start(locked, quotas), schedule).readCount == count
  }

  /** With or without the mutex, whatever has run so far can be continued to the end. */
  lemma {:induction false} CanAlwaysFinish(locked: bool, quotas: seq<nat>, schedule: seq<nat>)
    ensures exists more :: Complete(Exec(Start(locked, quotas), schedule + more))
  {
    var s := Start(locked, quotas);
    Reached(locked, quotas, schedule);
    if locked {
      SumZero(s.threads, Stores);
      ExecLockedInv(s, schedule);
    }
    var more := Finishes(Exec(s, schedule));
    ExecConcat(s, schedule, more);
    assert Complete(Exec(s, schedule + more));
  }

  /** Under the mutex the one possible final count is the total modulo 2^32. */
  lemma {:induction false} LockedFinalCount(quotas: seq<nat>, count: nat)
    ensures CanEndAt(true, quotas, count) <==> count == Sum(quotas, Same) % UINT_MODULUS
  {
    CanAlwaysFinish(true, quotas, []);
    var more :| Complete(Exec(Start(true, quotas), [] + more));
    MutexCountsEveryIteration(quotas, [] + more);
    if CanEndAt(true, quotas, count) {
      var schedule :| Complete(Exec(Start(true, quotas), schedule)) && Exec(Start(true, quotas), schedule).readCount == count;
      MutexCountsEveryIteration(quotas, schedule);
    }
  }

  // ----- What is printed, with or without the mutex

  function Unprinted(th: Thread): nat {
    if th.pc.Stored? then 1 else 0
  }

  ghost predicate PrintInv(s: State) {
    && |s.log| + Sum(s.threads, Unprinted) == Sum(s.threads, Stores)
    && (|| (exists t :: 0 <= t < |s.threads| && s.threads[t].pc.Stored?)
        || (s.log == [] && s.readCount == 0)
        || (s.log != [] && s.log[|s.log| - 1] == s.readCount))
  }

  lemma {:induction false} StepKeepsPrintInv(s: State, t: nat)
    requires PrintInv(s)
    ensures PrintInv(Step(s, t))
  {
    if t < |s.threads| {
      var s' := Step(s, t);
      SumUpdate(s.threads, t, s'.threads[t], Stores);
      SumUpdate(s.threads, t, s'.threads[t], Unprinted);
      assert s'.threads == s.threads[t := s'.threads[t]];
      if u :| 0 <= u < |s.threads| && s.threads[u].pc.Stored? && u != t {
        assert s'.threads[u].pc.Stored?;
      }
      if s.threads[t].pc.Loaded? {
        assert s'.threads[t].pc.Stored?;
      }
    }
  }

  lemma {:induction false} ExecPrintInv(locked: bool, quotas: seq<nat>, schedule: seq<nat>)
    ensures PrintInv(Exec(Start(locked, quotas), schedule))
  {
    if schedule == [] {
      SumZero(Start(locked, quotas).threads, Stores);
      SumZero(Start(locked, quotas).threads, Unprinted);
    } else {
      ExecPrintInv(locked, quotas, schedule[..|schedule| - 1]);
      StepKeepsPrintInv(Exec(Start(locked, quotas), schedule[..|schedule| - 1]), schedule[|schedule| - 1]);
    }
  }

  /** Every iteration prints once, and the last line printed is the final count. */
  lemma {:induction false} LastPrintIsFinalCount(locked: bool, quotas: seq<nat>, schedule: seq<nat>)
    requires Complete(Exec(Start(locked, quotas), schedule))
    ensures var e := Exec(Start(locked, quotas), schedule);
            && |e.log| == Sum(quotas, Same)
            && (if e.log == [] then e.readCount == 0 else e.log[|e.log| - 1] == e.readCount)
  {
    Reached(locked, quotas, schedule);
    ExecPrintInv(locked, quotas, schedule);
    var e := Exec(Start(locked, quotas), schedule);
    SumOfQuotas(e.threads, quotas);
    SumZero(e.threads, Unprinted);
  }

  // ----- Without the mutex: every count from the lowest to the total is possible

  lemma {:induction false} ExecConcat(s: State, a: seq<nat>, b: seq<nat>)
    ensures Exec(s, a + b) == Exec(Exec(s, a), b)
  {
    if b == [] {
      assert a + b == a;
    } else {
      var n := |b| - 1;
      assert (a + b)[..|a + b| - 1] == a + b[..n];
      ExecConcat(s, a, b[..n]);
    }
  }

  /** How often `t` is in `ids`. */
  function Count(ids: seq<nat>, t: nat): nat {
    if ids == [] then 0 else Count(ids[..|ids| - 1], t) + if ids[|ids| - 1] == t then 1 else 0
  }

  lemma {:induction false} CountConcat(a: seq<nat>, b: seq<nat>, t: nat)
    ensures Count(a + b, t) == Count(a, t) + Count(b, t)
  {
    if b == [] {
      assert a + b == a;
    } else {
      assert (a + b)[..|a + b| - 1] == a + b[..|b| - 1];
      CountConcat(a, b[..|b| - 1], t);
    }
  }

  /** A thread suspended between its load of `loaded` and its store. */
  datatype Sleeper = Nobody | Sleeper(t: nat, loaded: nat)

  /** `schedule` has finished the iterations of the threads `ran`, in that order. */
  ghost predicate At(quotas: seq<nat>, schedule: seq<nat>, ran: seq<nat>, sleeper: Sleeper, shadow: nat) {
    var e := Exec(Start(false, quotas), schedule);
    && !e.locked && |e.threads| == |quotas| && e.shadow == shadow && e.readCount == shadow % UINT_MODULUS
    && forall t | 0 <= t < |quotas| :: e.threads[t] == ThreadAt(quotas, ran, sleeper, t)
  }

  function ThreadAt(quotas: seq<nat>, ran: seq<nat>, sleeper: Sleeper, t: nat): Thread
    requires t < |quotas|
  {
    var pc := if sleeper.Sleeper? && sleeper.t == t then Loaded(sleeper.loaded % UINT_MODULUS, sleeper.loaded) else Idle;
    Thread(pc, Count(ran, t), quotas[t])
  }

  lemma {:induction false} TwoSteps(s: State, t: nat)
    ensures Exec(s, [t, t]) == Step(Step(s, t), t)
  {
    assert [t, t][..1] == [t];
    assert Exec(s, [t]) == Step(Exec(s, []), t);
  }

  lemma {:induction false} ThreeSteps(s: State, t: nat)
    ensures Exec(s, [t, t, t]) == Step(Step(Step(s, t), t), t)
  {
    TwoSteps(s, t);
    assert [t, t, t][..2] == [t, t];
  }

  lemma {:induction false} FallAsleep(quotas: seq<nat>, schedule: seq<nat>, ran: seq<nat>, t: nat, shadow: nat)
    requires At(quotas, schedule, ran, Nobody, shadow) && t < |quotas| && Count(ran, t) < quotas[t]
    ensures At(quotas, schedule + [t, t], ran, Sleeper(t, shadow), shadow)
  {
    ExecConcat(Start(false, quotas), schedule, [t, t]);
    TwoSteps(Exec(Start(false, quotas), schedule), t);
  }

  /** The sleeper stores its stale increment, which wipes out what ran meanwhile. */
  lemma {:induction false} WakeUp(quotas: seq<nat>, schedule: seq<nat>, ran: seq<nat>, sleeper: Sleeper, shadow: nat)
    requires sleeper.Sleeper? && At(quotas, schedule, ran, sleeper, shadow) && sleeper.t < |quotas|
    ensures At(quotas, schedule + [sleeper.t, sleeper.t, sleeper.t], ran + [sleeper.t], Nobody, sleeper.loaded + 1)
  {
    var t := sleeper.t;
    ExecConcat(Start(false, quotas), schedule, [t, t, t]);
    ThreeSteps(Exec(Start(false, quotas), schedule), t);
    Increment(sleeper.loaded, UINT_MODULUS);
    assert (ran + [t])[..|ran|] == ran;
  }

  lemma {:induction false} FiveSteps(s: State, t: nat)
    ensures Exec(s, [t, t] + [t, t, t]) == Step(Step(Step(Step(Step(s, t), t), t), t), t)
  {
    ExecConcat(s, [t, t], [t, t, t]);
    TwoSteps(s, t);
    ThreeSteps(Step(Step(s, t), t), t);
  }

  lemma {:induction false} OneIteration(quotas: seq<nat>, schedule: seq<nat>, ran: seq<nat>, sleeper: Sleeper, shadow: nat, t: nat)
    requires At(quotas, schedule, ran, sleeper, shadow) && t < |quotas| && Count(ran, t) < quotas[t]
    requires sleeper.Sleeper? ==> sleeper.t != t
    ensures At(quotas, schedule + ([t, t] + [t, t, t]), ran + [t], sleeper, shadow + 1)
  {
    ExecConcat(Start(false, quotas), schedule, [t, t] + [t, t, t]);
    FiveSteps(Exec(Start(false, quotas), schedule), t);
    Increment(shadow, UINT_MODULUS);
    assert (ran + [t])[..|ran|] == ran;
  }

  /** `schedule`, then undisturbed iterations of the threads `ids` in turn. */
  function Rounds(schedule: seq<nat>, ids: seq<nat>): seq<nat> {
    if ids == [] then schedule
    else var t := ids[|ids| - 1]; Rounds(schedule, ids[..|ids| - 1]) + ([t, t] + [t, t, t])
  }

  /** No thread runs more often in `ran` than it may. */
  ghost predicate Within(quotas: seq<nat>, ran: seq<nat>) {
    (forall i | 0 <= i < |ran| :: ran[i] < |quotas|) && (forall t | 0 <= t < |quotas| :: Count(ran, t) <= quotas[t])
  }

  lemma {:induction false} WithinPrefix(quotas: seq<nat>, ran: seq<nat>, more: seq<nat>)
    requires Within(quotas, ran + more)
    ensures Within(quotas, ran)
  {
    forall t | 0 <= t < |quotas|
      ensures Count(ran, t) <= quotas[t]
    {
      CountConcat(ran, more, t);
    }
    forall i | 0 <= i < |ran|
      ensures ran[i] < |quotas|
    {
      assert (ran + more)[i] == ran[i];
    }
  }

  lemma {:induction false} RunRounds(quotas: seq<nat>, schedule: seq<nat>, ran: seq<nat>, sleeper: Sleeper, shadow: nat, ids: seq<nat>)
    requires At(quotas, schedule, ran, sleeper, shadow) && Within(quotas, ran + ids)
    requires sleeper.Sleeper? ==> sleeper.t !in ids
    ensures At(quotas, Rounds(schedule, ids), ran + ids, sleeper, shadow + |ids|)
  {
    if ids == [] {
      assert ran + ids == ran;
    } else {
      var n := |ids| - 1;
      assert ran + ids == (ran + ids[..n]) + [ids[n]];
      WithinPrefix(quotas, ran + ids[..n], [ids[n]]);
      RunRounds(quotas, schedule, ran, sleeper, shadow, ids[..n]);
      CountConcat(ran + ids[..n], [ids[n]], ids[n]);
      assert (ran + ids)[|ran| + n] == ids[n];
      OneIteration(quotas, Rounds(schedule, ids[..n]), ran + ids[..n], sleeper, shadow + n, ids[n]);
    }
  }

  /** Thread `t` loads and sleeps through `lost`, which its store then wipes out. */
  function Nap(schedule: seq<nat>, t: nat, lost: seq<nat>): seq<nat> {
    Rounds(schedule + [t, t], lost) + [t, t, t]
  }

  lemma {:induction false} Room(quotas: seq<nat>, ran: seq<nat>, lost: seq<nat>, t: nat)
    requires t < |quotas| && Within(quotas, ran + lost + [t])
    ensures Within(quotas, ran + lost) && Count(ran, t) < quotas[t]
  {
    WithinPrefix(quotas, ran + lost, [t]);
    CountConcat(ran + lost, [t], t);
    CountConcat(ran, lost, t);
  }

  lemma {:induction false} RunNap(quotas: seq<nat>, schedule: seq<nat>, ran: seq<nat>, shadow: nat, t: nat, lost: seq<nat>)
    requires At(quotas, schedule, ran, Nobody, shadow)
    requires t < |quotas| && t !in lost && Within(quotas, ran + lost + [t])
    ensures At(quotas, Nap(schedule, t, lost), ran + lost + [t], Nobody, shadow + 1)
  {
    Room(quotas, ran, lost, t);
    FallAsleep(quotas, schedule, ran, t, shadow);
    RunRounds(quotas, schedule + [t, t], ran, Sleeper(t, shadow), shadow, lost);
    WakeUp(quotas, Rounds(schedule + [t, t], lost), ran + lost, Sleeper(t, shadow), shadow + |lost|);
  }

  lemma {:induction false} RunNapAndMore(quotas: seq<nat>, schedule: seq<nat>, ran: seq<nat>, shadow: nat, t: nat, lost: seq<nat>, kept: seq<nat>)
    requires At(quotas, schedule, ran, Nobody, shadow)
    requires t < |quotas| && t !in lost && Within(quotas, (ran + lost + [t]) + kept)
    ensures At(quotas, Rounds(Nap(schedule, t, lost), kept), (ran + lost + [t]) + kept, Nobody, shadow + 1 + |kept|)
  {
    WithinPrefix(quotas, ran + lost + [t], kept);
    RunNap(quotas, schedule, ran, shadow, t, lost);
    RunRounds(quotas, Nap(schedule, t, lost), ran + lost + [t], Nobody, shadow + 1, kept);
  }

  /** Thread 0 naps through `lost`, `kept` runs, thread 1 naps through `lost1`, `kept1` runs. */
  function Losing(lost: seq<nat>, kept: seq<nat>, lost1: seq<nat>, kept1: seq<nat>): seq<nat> {
    Rounds(Nap(Rounds(Nap([], 0, lost), kept), 1, lost1), kept1)
  }

  lemma {:induction false} RunLosing(quotas: seq<nat>, lost: seq<nat>, kept: seq<nat>, lost1: seq<nat>, kept1: seq<nat>)
    requires |quotas| >= 2 && 0 !in lost && 1 !in lost1
    requires Within(quotas, Dealt(lost, kept, lost1, kept1))
    ensures At(quotas, Losing(lost, kept, lost1, kept1), Dealt(lost, kept, lost1, kept1), Nobody, 2 + |kept| + |kept1|)
  {
    var first := ([] + lost + [0]) + kept;
    assert Dealt(lost, kept, lost1, kept1) == first + (lost1 + [1] + kept1);
    WithinPrefix(quotas, first, lost1 + [1] + kept1);
    assert At(quotas, [], [], Nobody, 0);
    RunNapAndMore(quotas, [], [], 0, 0, lost, kept);
    assert Dealt(lost, kept, lost1, kept1) == (first + lost1 + [1]) + kept1;
    RunNapAndMore(quotas, Rounds(Nap([], 0, lost), kept), first, 1 + |kept|, 1, lost1, kept1);
  }

  /** The iterations of `Losing` in the order in which they finish. */
  function Dealt(lost: seq<nat>, kept: seq<nat>, lost1: seq<nat>, kept1: seq<nat>): seq<nat> {
    lost + [0] + kept + lost1 + [1] + kept1
  }

  lemma {:induction false} CountDealt(lost: seq<nat>, kept: seq<nat>, lost1: seq<nat>, kept1: seq<nat>, t: nat)
    ensures Count(Dealt(lost, kept, lost1, kept1), t)
         == Count(lost + kept, t) + Count(lost1 + kept1, t) + (if t < 2 then 1 else 0)
  {
    CountConcat(lost + [0] + kept + lost1 + [1], kept1, t);
    CountConcat(lost + [0] + kept + lost1, [1], t);
    CountConcat(lost + [0] + kept, lost1, t);
    CountConcat(lost + [0], kept, t);
    CountConcat(lost, [0], t);
    CountConcat(lost, kept, t);
    CountConcat(lost1, kept1, t);
    assert Count([0], t) == Count([0][..0], t) + if t == 0 then 1 else 0;
    assert Count([1], t) == Count([1][..0], t) + if t == 1 then 1 else 0;
  }

  /** Every iteration of the threads below `k`. */
  function All(quotas: seq<nat>, k: nat): seq<nat>
    requires k <= |quotas|
  {
    if k == 0 then [] else All(quotas, k - 1) + seq(quotas[k - 1], _ => k - 1)
  }

  lemma {:induction false} CountSame(n: nat, id: nat, t: nat)
    ensures Count(seq(n, _ => id), t) == if t == id then n else 0
  {
    if n > 0 {
      CountSame(n - 1, id, t);
      assert seq(n, _ => id)[..n - 1] == seq(n - 1, _ => id);
    }
  }

  lemma {:induction false} AllCounts(quotas: seq<nat>, k: nat)
    requires k <= |quotas|
    ensures forall t: nat :: Count(All(quotas, k), t) == if t < k then quotas[t] else 0
    ensures forall i | 0 <= i < |All(quotas, k)| :: All(quotas, k)[i] < k && quotas[All(quotas, k)[i]] > 0
    ensures |All(quotas, k)| == Sum(quotas[..k], Same)
  {
    if k > 0 {
      AllCounts(quotas, k - 1);
      assert quotas[..k][..k - 1] == quotas[..k - 1];
      forall t: nat
        ensures Count(All(quotas, k), t) == if t < k then quotas[t] else 0
      {
        CountConcat(All(quotas, k - 1), seq(quotas[k - 1], _ => k - 1), t);
        CountSame(quotas[k - 1], k - 1, t);
      }
    }
  }

  ghost predicate RanAll(quotas: seq<nat>, ran: seq<nat>) {
    (forall i | 0 <= i < |ran| :: ran[i] < |quotas|) && (forall t | 0 <= t < |quotas| :: Count(ran, t) == quotas[t])
  }

  lemma {:induction false} EndedAt(quotas: seq<nat>, schedule: seq<nat>, ran: seq<nat>, shadow: nat)
    requires At(quotas, schedule, ran, Nobody, shadow) && RanAll(quotas, ran)
    ensures CanEndAt(false, quotas, shadow % UINT_MODULUS)
  {
    assert Complete(Exec(Start(false, quotas), schedule));
  }

  /** The quotas less one iteration of thread 1 and all of thread 0. */
  function Rest(quotas: seq<nat>): seq<nat>
    requires |quotas| >= 2 && quotas[1] >= 1
  {
    quotas[0 := 0][1 := quotas[1] - 1]
  }

  /** All the iterations, dealt out to the four gaps of `Losing`. */
  lemma {:induction false} DealtOut(quotas: seq<nat>, lost: seq<nat>, kept: seq<nat>, lost1: seq<nat>, kept1: seq<nat>)
    requires |quotas| >= 2 && quotas[0] >= 1 && quotas[1] >= 1
    requires lost + kept == All(Rest(quotas), |quotas|)
    requires lost1 + kept1 == seq(quotas[0] - 1, _ => 0)
    ensures 0 !in lost && 1 !in lost1
    ensures RanAll(quotas, Dealt(lost, kept, lost1, kept1))
  {
    AllCounts(Rest(quotas), |quotas|);
    forall t | 0 <= t < |quotas|
      ensures Count(Dealt(lost, kept, lost1, kept1), t) == quotas[t]
    {
      CountDealt(lost, kept, lost1, kept1, t);
      CountSame(quotas[0] - 1, 0, t);
    }
    DealtIds(quotas, lost, kept, lost1, kept1);
  }

  lemma {:induction false} DealtIds(quotas: seq<nat>, lost: seq<nat>, kept: seq<nat>, lost1: seq<nat>, kept1: seq<nat>)
    requires |quotas| >= 2
    requires forall i | 0 <= i < |lost + kept| :: 0 < (lost + kept)[i] < |quotas|
    requires forall i | 0 <= i < |lost1 + kept1| :: (lost1 + kept1)[i] == 0
    ensures 0 !in lost && 1 !in lost1
    ensures forall i | 0 <= i < |Dealt(lost, kept, lost1, kept1)| :: Dealt(lost, kept, lost1, kept1)[i] < |quotas|
  {
    assert forall i | 0 <= i < |lost| :: lost[i] == (lost + kept)[i];
    assert forall i | 0 <= i < |kept| :: kept[i] == (lost + kept)[|lost| + i];
    assert forall i | 0 <= i < |lost1| :: lost1[i] == (lost1 + kept1)[i];
    assert forall i | 0 <= i < |kept1| :: kept1[i] == (lost1 + kept1)[|lost1| + i];
  }

  lemma {:induction false} SumOfRest(quotas: seq<nat>)
    requires |quotas| >= 2 && quotas[0] >= 1 && quotas[1] >= 1
    ensures Sum(Rest(quotas), Same) + quotas[0] + 1 == Sum(quotas, Same)
  {
    SumUpdate(quotas, 0, 0, Same);
    SumUpdate(quotas[0 := 0], 1, quotas[1] - 1, Same);
  }

  /** A split of the other threads' iterations at `i` and of thread 0's own at `k`. */
  lemma {:induction false} EndsAtSplit(quotas: seq<nat>, others: seq<nat>, zeros: seq<nat>, i: nat, k: nat)
    requires |quotas| >= 2 && quotas[0] >= 1 && quotas[1] >= 1
    requires others == All(Rest(quotas), |quotas|) && zeros == seq(quotas[0] - 1, _ => 0)
    requires i <= |others| && k <= |zeros|
    ensures CanEndAt(false, quotas, (2 + (|others| - i) + (|zeros| - k)) % UINT_MODULUS)
  {
    var lost, kept, lost1, kept1 := others[..i], others[i..], zeros[..k], zeros[k..];
    assert lost + kept == others && lost1 + kept1 == zeros;
    DealtOut(quotas, lost, kept, lost1, kept1);
    RunLosing(quotas, lost, kept, lost1, kept1);
    EndedAt(quotas, Losing(lost, kept, lost1, kept1), Dealt(lost, kept, lost1, kept1), 2 + |kept| + |kept1|);
  }

  lemma {:induction false} OthersLength(quotas: seq<nat>)
    requires |quotas| >= 2 && quotas[0] >= 1 && quotas[1] >= 1
    ensures |All(Rest(quotas), |quotas|)| + quotas[0] + 1 == Sum(quotas, Same)
  {
    AllCounts(Rest(quotas), |quotas|);
    assert Rest(quotas)[..|quotas|] == Rest(quotas);
    SumOfRest(quotas);
  }

  /** Any count from 2 to the total is reached. */
  lemma {:induction false} EndsAt(quotas: seq<nat>, n: nat)
    requires |quotas| >= 2 && quotas[0] >= 1 && quotas[1] >= 1 && 2 <= n <= Sum(quotas, Same)
    ensures CanEndAt(false, quotas, n % UINT_MODULUS)
  {
    var others, zeros := All(Rest(quotas), |quotas|), seq(quotas[0] - 1, _ => 0);
    OthersLength(quotas);
    var j := if n - 2 < |others| then n - 2 else |others|;
    EndsAtSplit(quotas, others, zeros, |others| - j, |zeros| - (n - 2 - j));
  }

  /** A thread with a single iteration sleeps on its load of 0 while all others run through. */
  lemma {:induction false} EndsAtOne(quotas: seq<nat>, t: nat)
    requires t < |quotas| && quotas[t] == 1
    ensures CanEndAt(false, quotas, 1)
  {
    var rest := quotas[t := 0];
    var others := All(rest, |quotas|);
    AllCounts(rest, |quotas|);
    forall u | 0 <= u < |quotas|
      ensures Count(others + [t], u) == quotas[u]
    {
      CountConcat(others, [t], u);
    }
    assert [] + others + [t] == others + [t];
    assert At(quotas, [], [], Nobody, 0);
    RunNap(quotas, [], [], 0, t, others);
    EndedAt(quotas, Nap([], t, others), others + [t], 1);
  }

  /** The least count unlocked threads with at least one iteration each can end at. */
  function Lowest(quotas: seq<nat>): nat {
    if 1 in quotas then 1 else 2
  }

  lemma {:induction false} EndsWithin(quotas: seq<nat>, count: nat)
    requires |quotas| > 0 && (forall t | 0 <= t < |quotas| :: quotas[t] >= 1) && CanEndAt(false, quotas, count)
    ensures exists n: nat :: Lowest(quotas) <= n <= Sum(quotas, Same) && count == n % UINT_MODULUS
  {
    var schedule :| Complete(Exec(Start(false, quotas), schedule)) && Exec(Start(false, quotas), schedule).readCount == count;
    FinalCountBounds(false, quotas, schedule);
    var n := Exec(Start(false, quotas), schedule).shadow;
    assert quotas[0] >= 1;
    assert Lowest(quotas) <= n <= Sum(quotas, Same) && count == n % UINT_MODULUS;
  }

  /** The counts any two or more unlocked threads can end at are exactly those from 2 (from 1
      if some thread runs only once) to the total of iterations, each taken modulo 2^32. */
  lemma {:induction false} PossibleFinalCounts(quotas: seq<nat>, count: nat)
    requires |quotas| >= 2 && forall t | 0 <= t < |quotas| :: quotas[t] >= 1
    ensures CanEndAt(false, quotas, count)
       <==> exists n: nat :: Lowest(quotas) <= n <= Sum(quotas, Same) && count == n % UINT_MODULUS
  {
    if CanEndAt(false, quotas, count) {
      EndsWithin(quotas, count);
    }
    if n: nat :| Lowest(quotas) <= n <= Sum(quotas, Same) && count == n % UINT_MODULUS {
      if n >= 2 {
        EndsAt(quotas, n);
      } else {
        var t :| 0 <= t < |quotas| && quotas[t] == 1;
        EndsAtOne(quotas, t);
      }
    }
  }

  /** Two or more unlocked threads always end at 2 or more exactly when each runs at least twice
      and the 32-bit counter cannot wrap; and 2 itself, with all else lost, is possible. */
  lemma {:induction false} AtLeastTwoExactly(quotas: seq<nat>)
    requires |quotas| >= 2 && forall t | 0 <= t < |quotas| :: quotas[t] >= 1
    ensures (forall count: nat | CanEndAt(false, quotas, count) :: count >= 2) <==> 1 !in quotas && Sum(quotas, Same) < UINT_MODULUS
    ensures CanEndAt(false, quotas, 2)
  {
    SumOfRest(quotas);
    EndsAt(quotas, 2);
    if t :| 0 <= t < |quotas| && quotas[t] == 1 {
      EndsAtOne(quotas, t);
    } else if Sum(quotas, Same) >= UINT_MODULUS {
      EndsAt(quotas, UINT_MODULUS);
      assert UINT_MODULUS % UINT_MODULUS == 0;
    } else {
      forall count: nat | CanEndAt(false, quotas, count)
        ensures count >= 2
      {
        EndsWithin(quotas, count);
      }
    }
  }
}
