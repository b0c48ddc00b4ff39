/**
 completion_module.c: my_read and hello_exit set a flag, test completion_done and, some time
 later, call complete; a waiter consumes the completions.  Any number of callers.
 `issued`, `passed` and `exited` are history.
 */
module Completion {
  import opened Kernel
  import opened Tally

  /** A caller runs my_read over and over, or hello_exit once. */
  datatype Caller = Caller(exit: bool, pc: CallerPc)

  datatype CallerPc = Start | FlagSet | Between | Finished

  datatype WaiterPc = Waiting | Woken | Leaving | Clearing | Returned

  datatype State = State(count: nat, waitFlag: nat, waiter: WaiterPc, callers: seq<Caller>,
                         issued: nat, passed: nat, exited: bool)

  /** A caller's next statement (by index), or the waiter's. */
  datatype Event = Call(t: nat) | Wait

  const UINT_MAX: nat := UINT_MODULUS - 1

  function SetPc(s: State, t: nat, pc: CallerPc): State
    requires t < |s.callers|
  {
    s.(callers := s.callers[t := s.callers[t].(pc := pc)])
  }

  function DonePc(c: Caller): CallerPc {
    if c.exit then Finished else Start
  }

  function CallerStep(s: State, t: nat): State
    requires t < |s.callers|
  {
    var c := s.callers[t];
    match c.pc
    case Start => SetPc(s, t, FlagSet).(waitFlag := if c.exit then 2 else 1, exited := s.exited || c.exit)
    case FlagSet => SetPc(s, t, if s.count != 0 then DonePc(c) else Between)
    case Between =>
      // complete() leaves a saturated count alone
      SetPc(s, t, DonePc(c)).(count := if s.count == UINT_MAX then s.count else s.count + 1, issued := s.issued + 1)
    case Finished => s
  }

  function WaiterStep(s: State): State {
    match s.waiter
    case Waiting =>
      if s.count > 0 then
        s.(count := if s.count == UINT_MAX then s.count else s.count - 1, passed := s.passed + 1, waiter := Woken)
      else s
    case Woken => s.(waiter := if s.waitFlag == 2 then Leaving else Clearing)
    case Leaving => s.(waitFlag := 0, waiter := Returned)
    case Clearing => s.(waitFlag := 0, waiter := Waiting)
    case Returned => s
  }

  function Step(s: State, e: Event): State {
    match e
    case Call(t) => if t < |s.callers| then CallerStep(s, t) else s
    case Wait => WaiterStep(s)
  }

  class CompletionModule {
    var count: nat
    var waitFlag: nat
    var waiter: WaiterPc
    var callers: seq<Caller>
    var issued: nat
    var passed: nat
    var exited: bool

    ghost function Snapshot(): State
      reads this
    {
      State(count, waitFlag, waiter, callers, issued, passed, exited)
    }

    constructor (roles: seq<bool>)
      ensures Snapshot() == Begin(roles)
    {
      count, waitFlag, waiter, issued, passed, exited := 0, 0, Waiting, 0, 0, false;
      callers := seq(|roles|, t requires 0 <= t < |roles| => Caller(roles[t], Start));
    }

    /** The next statement of my_read (after the copy) or of hello_exit. */
    method CallStep(t: nat)
      requires t < |callers|
      modifies this
      ensures Snapshot() == Step(old(Snapshot()), Call(t))
    {
      var c := callers[t];
      match c.pc {
        case Start =>
          waitFlag := if c.exit then 2 else 1;
          exited := exited || c.exit;
          callers := callers[t := c.(pc := FlagSet)];
        case FlagSet =>
          if count == 0 {
            callers := callers[t := c.(pc := Between)];
          } else {
            callers := callers[t := c.(pc := DonePc(c))];
          }
        case Between =>
          if count != UINT_MAX {
            count := count + 1;
          }
          issued := issued + 1;
          callers := callers[t := c.(pc := DonePc(c))];
        case Finished =>
      }
    }

    /** The next statement of wait_function. */
    method WaitFunctionStep()
      modifies this
      ensures Snapshot() == Step(old(Snapshot()), Wait)
    {
      match waiter {
        case Waiting =>
          if count > 0 {
            if count != UINT_MAX {
              count := count - 1;
            }
            passed := passed + 1;
            waiter := Woken;
          }
        case Woken =>
          if waitFlag == 2 {
            waiter := Leaving;
          } else {
            waiter := Clearing;
          }
        case Leaving =>
          waitFlag := 0;
          waiter := Returned;
        case Clearing =>
          waitFlag := 0;
          waiter := Waiting;
        case Returned =>
      }
    }
  }

  function Begin(roles: seq<bool>): State {
    State(0, 0, Waiting, seq(|roles|, t requires 0 <= t < |roles| => Caller(roles[t], Start)), 0, 0, false)
  }

  function Exec(s: State, events: seq<Event>): State {
    if events == [] then s else Step(Exec(s, events[..|events| - 1]), events[|events| - 1])
  }

  function BetweenCheckAndComplete(c: Caller): nat {
    if c.pc.Between? then 1 else 0
  }

  ghost predicate Inv(s: State) {
    && s.count + Sum(s.callers, BetweenCheckAndComplete) <= |s.callers| && s.count <= UINT_MAX
    && (|s.callers| < UINT_MAX ==> s.passed + s.count == s.issued)
    && (s.waitFlag == 2 ==> s.exited)
    && (s.waiter.Leaving? || s.waiter.Returned? ==> s.exited)
  }

  lemma StepKeepsInv(s: State, e: Event)
    requires Inv(s)
    ensures Inv(Step(s, e)) && |Step(s, e).callers| == |s.callers|
  {
    if e.Call? && e.t < |s.callers| {
      var s' := Step(s, e);
      assert s'.callers == s.callers[e.t := s'.callers[e.t]];
      SumUpdate(s.callers, e.t, s'.callers[e.t], BetweenCheckAndComplete);
      SumAtMostLength(s'.callers, BetweenCheckAndComplete);
    }
  }

  lemma {:induction false} ExecInv(roles: seq<bool>, events: seq<Event>)
    ensures Inv(Exec(Begin(roles), events)) && |Exec(Begin(roles), events).callers| == |roles|
  {
    if events == [] {
      SumZero(Begin(roles).callers, BetweenCheckAndComplete);
    } else {
      ExecInv(roles, events[..|events| - 1]);
      StepKeepsInv(Exec(Begin(roles), events[..|events| - 1]), events[|events| - 1]);
    }
  }

  /** With K callers the count, plus the callers between test and complete, never exceeds K,
      and the waiter returns only after hello_exit has stored 2. */
  lemma CountNeverExceedsCallers(roles: seq<bool>, events: seq<Event>)
    ensures var e := Exec(Begin(roles), events);
            && e.count + Sum(e.callers, BetweenCheckAndComplete) <= |roles|
            && (e.waiter.Returned? ==> e.exited)
  {
    ExecInv(roles, events);
  }

  // ----- The bound is reached

  /** The first `k` callers have tested, the first `n` of them have completed. */
  ghost predicate Progress(s: State, roles: seq<bool>, k: nat, n: nat)
    requires n <= k <= |roles|
  {
    && |s.callers| == |roles| && s.count == n && s.waiter.Waiting?
    && forall t | 0 <= t < |roles| ::
         s.callers[t] == Caller(roles[t], if t < n then DonePc(Caller(roles[t], Start)) else if t < k then Between else Start)
  }

  function TestAll(k: nat): seq<Event> {
    if k == 0 then [] else TestAll(k - 1) + [Call(k - 1)] + [Call(k - 1)]
  }

  function CompleteAll(k: nat, n: nat): seq<Event> {
    if n == 0 then TestAll(k) else CompleteAll(k, n - 1) + [Call(n - 1)]
  }

  lemma OneMore(s: State, events: seq<Event>, e: Event)
    ensures Exec(s, events + [e]) == Step(Exec(s, events), e)
  {
    assert (events + [e])[..|events|] == events;
  }

  lemma OneTests(s: State, roles: seq<bool>, k: nat)
    requires k < |roles| && Progress(s, roles, k, 0)
    ensures Progress(Step(Step(s, Call(k)), Call(k)), roles, k + 1, 0)
  {
  }

  lemma OneCompletes(s: State, roles: seq<bool>, n: nat)
    requires n < |roles| && n < UINT_MAX && Progress(s, roles, |roles|, n)
    ensures Progress(Step(s, Call(n)), roles, |roles|, n + 1)
  {
  }

  lemma {:induction false} AllTest(roles: seq<bool>, k: nat)
    requires k <= |roles|
    ensures Progress(Exec(Begin(roles), TestAll(k)), roles, k, 0)
  {
    if k > 0 {
      AllTest(roles, k - 1);
      OneTests(Exec(Begin(roles), TestAll(k - 1)), roles, k - 1);
      OneMore(Begin(roles), TestAll(k - 1), Call(k - 1));
      OneMore(Begin(roles), TestAll(k - 1) + [Call(k - 1)], Call(k - 1));
    }
  }

  lemma {:induction false} AllComplete(roles: seq<bool>, n: nat)
    requires n <= |roles| && n <= UINT_MAX
    ensures Progress(Exec(Begin(roles), CompleteAll(|roles|, n)), roles, |roles|, n)
  {
    if n == 0 {
      AllTest(roles, |roles|);
    } else {
      AllComplete(roles, n - 1);
      OneCompletes(Exec(Begin(roles), CompleteAll(|roles|, n - 1)), roles, n - 1);
      OneMore(Begin(roles), CompleteAll(|roles|, n - 1), Call(n - 1));
    }
  }

  /** K is the least bound, short of the saturation: all callers can test before any of them
      completes. */
  lemma CountReachesExactly(roles: seq<bool>, bound: nat)
    ensures (forall events: seq<Event> :: Exec(Begin(roles), events).count <= bound) <==> |roles| <= bound || UINT_MAX <= bound
  {
    if |roles| <= bound || UINT_MAX <= bound {
      forall events: seq<Event>
        ensures Exec(Begin(roles), events).count <= bound
      {
        ExecInv(roles, events);
      }
    } else {
      AllComplete(roles, bound + 1);
      assert Exec(Begin(roles), CompleteAll(|roles|, bound + 1)).count > bound;
    }
  }

  /** Every run conserves completions -- waits passed plus the count are the completes issued --
      exactly when there are too few callers to saturate the count. */
  lemma CompletionsConservedExactly(roles: seq<bool>)
    ensures (forall events: seq<Event> :: var e := Exec(Begin(roles), events); e.passed + e.count == e.issued) <==> |roles| < UINT_MAX
  {
    if |roles| < UINT_MAX {
      forall events: seq<Event>
        ensures var e := Exec(Begin(roles), events); e.passed + e.count == e.issued
      {
        ExecInv(roles, events);
      }
    } else {
      var full := CompleteAll(|roles|, UINT_MAX);
      AllComplete(roles, UINT_MAX);
      OneMore(Begin(roles), full, Wait);
      var before, after := Exec(Begin(roles), full), Exec(Begin(roles), full + [Wait]);
      assert after.passed + after.count != after.issued || before.passed + before.count != before.issued;
    }
  }

  /** `n` statements of the waiter alone. */
  function Waits(s: State, n: nat): State {
    if n == 0 then s else Step(Waits(s, n - 1), Wait)
  }

  /** A sleeping waiter takes one completion, finds no exit and sleeps again. */
  lemma TakesOne(s: State)
    requires s.waiter.Waiting? && 0 < s.count < UINT_MAX && s.waitFlag != 2
    ensures Waits(s, 3) == s.(count := s.count - 1, passed := s.passed + 1, waitFlag := 0)
  {
    assert Waits(s, 1) == Step(Waits(s, 0), Wait) && Waits(s, 2) == Step(Waits(s, 1), Wait) && Waits(s, 3) == Step(Waits(s, 2), Wait);
  }

  /** A sleeping waiter that finds the exit clears the flag and returns. */
  lemma LeavesOnExit(s: State)
    requires s.waiter.Waiting? && 0 < s.count < UINT_MAX && s.waitFlag == 2
    ensures Waits(s, 3) == s.(count := s.count - 1, passed := s.passed + 1, waitFlag := 0, waiter := Returned)
  {
    assert Waits(s, 1) == Step(Waits(s, 0), Wait) && Waits(s, 2) == Step(Waits(s, 1), Wait) && Waits(s, 3) == Step(Waits(s, 2), Wait);
  }

  lemma {:induction false} WaitsTwice(s: State, n: nat, m: nat)
    ensures Waits(Waits(s, n), m) == Waits(s, n + m)
  {
    if m > 0 {
      WaitsTwice(s, n, m - 1);
    }
  }

  lemma {:induction false} TakesAll(s: State)
    requires s.waiter.Waiting? && s.count < UINT_MAX && s.waitFlag != 2
    ensures var e := Waits(s, 3 * s.count);
            e.waiter.Waiting? && e.count == 0 && e.passed == s.passed + s.count && e.issued == s.issued
    decreases s.count
  {
    if s.count > 0 {
      TakesOne(s);
      TakesAll(Waits(s, 3));
      WaitsTwice(s, 3, 3 * (s.count - 1));
    }
  }

  ghost predicate DrainsIn(s: State, n: nat) {
    n <= 3 * s.count + 2 && Waits(s, n).waiter.Waiting? && Waits(s, n).count == 0 && Waits(s, n).passed == s.issued
  }

  /** No completion is lost, short of the saturation: as long as hello_exit has not stored 2 the
      waiter, run alone, consumes every completion issued. */
  lemma {:induction false} ConsumesEveryCompletion(roles: seq<bool>, events: seq<Event>)
    requires |roles| < UINT_MAX && !Exec(Begin(roles), events).exited
    ensures exists n :: DrainsIn(Exec(Begin(roles), events), n)
  {
    ExecInv(roles, events);
    var s := Exec(Begin(roles), events);
    var k := match s.waiter case Woken => 2 case Clearing => 1 case _ => 0;
    assert Waits(s, 1) == Step(Waits(s, 0), Wait) && Waits(s, 2) == Step(Waits(s, 1), Wait);
    var s1 := Waits(s, k);
    assert s1.waiter.Waiting? && s1.count == s.count && s1.passed == s.passed && s1.issued == s.issued && s1.waitFlag != 2;
    TakesAll(s1);
    WaitsTwice(s, k, 3 * s.count);
    assert DrainsIn(s, k + 3 * s.count);
  }

  /** One call of my_read: it issues a completion if and only if it finds none. */
  lemma ReadIssuesExactly(s: State, t: nat)
    requires t < |s.callers| && s.callers[t] == Caller(false, Start) && s.count < UINT_MAX
    ensures var e := Step(Step(s, Call(t)), Call(t));
            if s.count > 0 then e == s.(waitFlag := 1)
            else e.callers[t].pc.Between? && Step(e, Call(t)) == s.(waitFlag := 1, count := 1, issued := s.issued + 1)
  {
    assert s.callers[t := s.callers[t]] == s.callers;
    var e := Step(Step(s, Call(t)), Call(t));
    assert s.count > 0 ==> e.callers == s.callers;
    assert s.count == 0 ==> Step(e, Call(t)).callers == s.callers;
  }

  /** The waiter is about to clear the flag, or the flag is clear and it cannot leave. */
  predicate Lost(s: State) {
    s.waiter.Clearing? || (s.waitFlag == 0 && (s.waiter.Waiting? || s.waiter.Woken?))
  }

  /** The waiter is on its way out, or sleeps with a completion there or to come. */
  predicate Heading(s: State, t: nat)
    requires t < |s.callers|
  {
    match s.waiter
    case Waiting => s.waitFlag == 2 && (s.callers[t].pc.FlagSet? || s.callers[t].pc.Between? || s.count > 0)
    case Woken => s.waitFlag == 2
    case Clearing => false
    case _ => true
  }

  /** The statements of hello_exit, run by caller `t`, and of the waiter in any order. */
  predicate Interleaves(t: nat, events: seq<Event>) {
    forall i | 0 <= i < |events| :: events[i] == Wait || events[i] == Call(t)
  }

  /** Caller `t` is past its store of 2. */
  predicate Stored(s: State, t: nat) {
    t < |s.callers| && s.callers[t].exit && !s.callers[t].pc.Start?
  }

  lemma {:induction false} StaysDecided(s: State, t: nat, events: seq<Event>)
    requires Stored(s, t) && Interleaves(t, events)
    ensures Stored(Exec(s, events), t)
    ensures Lost(s) ==> Lost(Exec(s, events))
    ensures Heading(s, t) ==> Heading(Exec(s, events), t)
  {
    if events != [] {
      var e := events[|events| - 1];
      assert e == Wait || e == Call(t);
      StaysDecided(s, t, events[..|events| - 1]);
    }
  }

  lemma {:induction false} LostForever(s: State, n: nat)
    requires Lost(s)
    ensures Lost(Waits(s, n))
  {
    if n > 0 {
      LostForever(s, n - 1);
    }
  }

  lemma HeadingReturns(s: State, t: nat)
    requires Stored(s, t) && Heading(s, t) && s.callers[t].pc.Finished?
    ensures Waits(s, 3).waiter.Returned?
  {
    assert Waits(s, 0) == s && Waits(s, 1) == Step(s, Wait) && Waits(s, 2) == Step(Waits(s, 1), Wait);
    assert Waits(s, 3) == Step(Waits(s, 2), Wait);
  }

  /** The statements of hello_exit are interleaved with the waiter's in any way, and the waiter
      then runs on alone: it returns exactly unless the store of 2 fell between its test of the
      flag and its reset. */
  lemma {:induction false} ExitReachesWaiterExactly(s: State, t: nat, events: seq<Event>)
    requires t < |s.callers| && s.callers[t] == Caller(true, Start) && Interleaves(t, events)
    requires t < |Exec(Step(s, Call(t)), events).callers| && Exec(Step(s, Call(t)), events).callers[t].pc.Finished?
    ensures (exists n :: Waits(Exec(Step(s, Call(t)), events), n).waiter.Returned?) <==> !s.waiter.Clearing?
  {
    var e := Exec(Step(s, Call(t)), events);
    StaysDecided(Step(s, Call(t)), t, events);
    if s.waiter.Clearing? {
      forall n: nat
        ensures !Waits(e, n).waiter.Returned?
      {
        LostForever(e, n);
      }
    } else {
      HeadingReturns(e, t);
    }
  }
}
