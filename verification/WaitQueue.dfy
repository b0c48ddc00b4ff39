/**
 wait_queue_module.c: a waiter sleeps until its flag is set, any number of my_read calls set
 it to 1, hello_exit sets it to 2.  A wake-up makes the sleeping waiter test its condition
 again, so the waiter's step may be tried at any time.

 `wakeups` is read_count without the 32-bit wrap.  `stores`, `groups` and `dirty` are history:
 `groups` counts the stores of my_read, those between two resets of the flag once.
 */
module WaitQueue {
  import opened Kernel

  datatype Pc = Waiting | Woken | Counting | Resetting | Returned

  datatype Event = ReadStores | ExitStores | WaiterRuns

  datatype State = State(flag: nat, pc: Pc, readCount: nat, wakeups: nat,
                         stores: nat, groups: nat, dirty: bool, exited: bool)

  const START := State(0, Waiting, 0, 0, 0, 0, false, false)

  function WaiterStep(s: State): State {
    match s.pc
    case Waiting => if s.flag != 0 then s.(pc := Woken) else s
    case Woken => if s.flag == 2 then s.(pc := Returned) else s.(pc := Counting)
    case Counting => s.(readCount := (s.readCount + 1) % UINT_MODULUS, wakeups := s.wakeups + 1, pc := Resetting)
    case Resetting => s.(flag := 0, dirty := false, pc := Waiting)
    case Returned => s
  }

  function Step(s: State, e: Event): State {
    match e
    case ReadStores =>
      s.(flag := 1, stores := s.stores + 1, groups := if s.dirty then s.groups else s.groups + 1, dirty := true)
    case ExitStores => s.(flag := 2, exited := true)
    case WaiterRuns => WaiterStep(s)
  }

  class WaitModule {
    var waitQueueFlag: nat
    var pc: Pc
    var readCount: nat
    var wakeups: nat
    var stores: nat
    var groups: nat
    var dirty: bool
    var exited: bool

    ghost function Snapshot(): State
      reads this
    {
      State(waitQueueFlag, pc, readCount, wakeups, stores, groups, dirty, exited)
    }

    constructor ()
      ensures Snapshot() == START
    {
      waitQueueFlag, pc, readCount, wakeups, stores, groups, dirty, exited := 0, Waiting, 0, 0, 0, 0, false, false;
    }

    /** The end of my_read. */
    method ReadStore()
      modifies this
      ensures Snapshot() == Step(old(Snapshot()), ReadStores)
    {
      waitQueueFlag := 1;
      stores := stores + 1;
      if !dirty {
        groups := groups + 1;
        dirty := true;
      }
    }

    /** The start of hello_exit. */
    method ExitStore()
      modifies this
      ensures Snapshot() == Step(old(Snapshot()), ExitStores)
    {
      waitQueueFlag := 2;
      exited := true;
    }

    /** The next access of wait_function. */
    method WaitFunctionStep()
      modifies this
      ensures Snapshot() == Step(old(Snapshot()), WaiterRuns)
    {
      match pc {
        case Waiting =>
          if waitQueueFlag != 0 {
            pc := Woken;
          }
        case Woken =>
          if waitQueueFlag == 2 {
            pc := Returned;
          } else {
            pc := Counting;
          }
        case Counting =>
          readCount := (readCount + 1) % UINT_MODULUS;
          wakeups := wakeups + 1;
          pc := Resetting;
        case Resetting =>
          waitQueueFlag := 0;
          dirty := false;
          pc := Waiting;
        case Returned =>
      }
    }
  }

  function Exec(s: State, events: seq<Event>): State {
    if events == [] then s else Step(Exec(s, events[..|events| - 1]), events[|events| - 1])
  }

  ghost predicate Inv(s: State) {
    && s.flag <= 2 && (s.flag == 0 ==> !s.dirty) && (s.flag == 1 ==> s.dirty) && (s.flag == 2 ==> s.exited)
    && (s.pc.Woken? ==> s.flag != 0)
    && (s.pc.Counting? || s.pc.Resetting? ==> s.dirty)
    && (s.pc.Returned? ==> s.exited)
    && s.readCount == s.wakeups % UINT_MODULUS
    && s.groups == s.wakeups + (if s.dirty && !s.pc.Resetting? then 1 else 0)
    && s.groups <= s.stores
  }

  lemma {:induction false} ExecInv(events: seq<Event>)
    ensures Inv(Exec(START, events))
  {
    if events != [] {
      ExecInv(events[..|events| - 1]);
      Increment(Exec(START, events[..|events| - 1]).wakeups, UINT_MODULUS);
    }
  }

  /** Over every interleaving: the waiter has counted every group of my_read stores but at
      most the one still pending, so never more wake-ups than stores; and it returns only
      after hello_exit has stored 2. */
  lemma CountsEveryGroup(events: seq<Event>)
    ensures var s := Exec(START, events);
            && s.readCount == s.wakeups % UINT_MODULUS
            && s.wakeups <= s.groups <= s.wakeups + 1 && s.groups <= s.stores
            && (s.pc.Waiting? && s.flag == 0 ==> s.groups == s.wakeups)
            && (s.pc.Returned? ==> s.exited)
  {
    ExecInv(events);
  }

  /** `n` statements of the waiter alone. */
  function Waits(s: State, n: nat): State {
    if n == 0 then s else Step(Waits(s, n - 1), WaiterRuns)
  }

  /** A sleeping waiter whose flag a reader has set wakes, counts and sleeps again. */
  lemma WakesForRead(s: State)
    requires s.pc.Waiting? && s.flag == 1
    ensures var e := Waits(s, 4);
            && e.pc.Waiting? && e.flag == 0 && !e.dirty && e.wakeups == s.wakeups + 1
            && e.readCount == (s.readCount + 1) % UINT_MODULUS && e.groups == s.groups
  {
    assert Waits(s, 1) == Step(Waits(s, 0), WaiterRuns) && Waits(s, 2) == Step(Waits(s, 1), WaiterRuns);
    assert Waits(s, 3) == Step(Waits(s, 2), WaiterRuns) && Waits(s, 4) == Step(Waits(s, 3), WaiterRuns);
  }

  /** The waiter has counted all groups and sleeps. */
  predicate CaughtUp(s: State) {
    s.pc.Waiting? && s.flag == 0 && s.wakeups == s.groups && s.readCount == s.groups % UINT_MODULUS
  }

  ghost predicate CatchesUpIn(s: State, n: nat) {
    n <= 4 && CaughtUp(Waits(s, n)) && Waits(s, n).groups == s.groups
  }

  /** No read is lost: as long as hello_exit has not stored 2, the waiter catches up with every
      group of stores within four statements of its own. */
  lemma CatchesUp(events: seq<Event>)
    requires !Exec(START, events).exited
    ensures exists n :: CatchesUpIn(Exec(START, events), n)
  {
    ExecInv(events);
    var s := Exec(START, events);
    var n := match s.pc case Waiting => if s.flag == 0 then 0 else 4 case Woken => 3 case Counting => 2 case _ => 1;
    Increment(s.wakeups, UINT_MODULUS);
    assert Waits(s, 0) == s && Waits(s, 1) == Step(s, WaiterRuns) && Waits(s, 2) == Step(Waits(s, 1), WaiterRuns);
    assert Waits(s, 3) == Step(Waits(s, 2), WaiterRuns) && Waits(s, 4) == Step(Waits(s, 3), WaiterRuns);
    assert CatchesUpIn(s, n);
  }

  /** The waiter is about to clear the flag, or has done so and sleeps. */
  predicate Missed(s: State) {
    s.pc.Counting? || s.pc.Resetting? || (s.pc.Waiting? && s.flag == 0)
  }

  lemma {:induction false} MissedForever(s: State, n: nat)
    requires Missed(s)
    ensures Missed(Waits(s, n))
  {
    if n > 0 {
      MissedForever(s, n - 1);
    }
  }

  /** hello_exit stores 2 and the waiter then runs on alone: it returns, after however many
      statements, exactly unless the store fell between its test of the flag and its reset,
      which overwrites the 2. */
  lemma ExitReachesWaiterExactly(s: State)
    ensures (exists n :: Waits(Step(s, ExitStores), n).pc.Returned?) <==> !s.pc.Counting? && !s.pc.Resetting?
  {
    var e := Step(s, ExitStores);
    if s.pc.Counting? || s.pc.Resetting? {
      forall n: nat
        ensures !Waits(e, n).pc.Returned?
      {
        MissedForever(e, n);
      }
    } else {
      assert Waits(e, 0) == e && Waits(e, 1) == Step(e, WaiterRuns) && Waits(e, 2) == Step(Waits(e, 1), WaiterRuns);
      assert Waits(e, 2).pc.Returned?;
    }
  }
}
