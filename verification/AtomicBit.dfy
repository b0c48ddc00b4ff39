/** atomic_variable.c: every thread does an atomic increment and then an atomic toggle of bit 1.
    `incs` and `toggles` are history; `returned` lists what test_and_change_bit returned. */
module AtomicBit {
  import opened Kernel
  import opened Tally

  /** At the loop test, between the two operations, or about to print the returned bit. */
  datatype Thread = Idle | Between | Printing(bit: nat)

  datatype State = State(atomicV: nat, bitCheck: nat, threads: seq<Thread>, incs: nat, toggles: nat, returned: seq<nat>)

  function Bit1(word: nat): nat { word / 2 % 2 }

  function Toggle1(word: nat): nat {
    if Bit1(word) == 1 then word - 2 else word + 2
  }

  function Step(s: State, t: nat): State {
    if |s.threads| <= t then s else
    match s.threads[t]
    case Idle =>
      s.(atomicV := (s.atomicV + 1) % UINT_MODULUS, incs := s.incs + 1, threads := s.threads[t := Between])
    case Between =>
      s.(bitCheck := Toggle1(s.bitCheck), toggles := s.toggles + 1, returned := s.returned + [Bit1(s.bitCheck)],
         threads := s.threads[t := Printing(Bit1(s.bitCheck))])
    case Printing(_) =>
      s.(threads := s.threads[t := Idle])
  }

  class AtomicModule {
    var atomicV: nat
    var bitCheck: nat
    var threads: seq<Thread>
    var incs: nat
    var toggles: nat
    var returned: seq<nat>

    ghost function Snapshot(): State
      reads this
    {
      State(atomicV, bitCheck, threads, incs, toggles, returned)
    }

    constructor (n: nat)
      ensures Snapshot() == Begin(n)
    {
      atomicV, bitCheck, incs, toggles, returned := 0, 0, 0, 0, [];
      threads := seq(n, _ => Idle);
    }

    /** test_and_change_bit(1, &bit_check): flips the bit and returns what it was. */
    method TestAndChangeBit() returns (bit: nat)
      modifies this`bitCheck
      ensures bit == Bit1(old(bitCheck)) && bitCheck == Toggle1(old(bitCheck))
    {
      bit := bitCheck / 2 % 2;
      if bit == 1 {
        bitCheck := bitCheck - 2;
      } else {
        bitCheck := bitCheck + 2;
      }
    }

    method ThreadStep(t: nat)
      requires t < |threads|
      modifies this
      ensures Snapshot() == Step(old(Snapshot()), t)
    {
      match threads[t] {
        case Idle =>
          atomicV := (atomicV + 1) % UINT_MODULUS;
          incs := incs + 1;
          threads := threads[t := Between];
        case Between =>
          var perValue := TestAndChangeBit();
          toggles := toggles + 1;
          returned := returned + [perValue];
          threads := threads[t := Printing(perValue)];
        case Printing(_) =>
          threads := threads[t := Idle];
      }
    }
  }

  function Begin(n: nat): State {
    State(0, 0, seq(n, _ => Idle), 0, 0, [])
  }

  function Exec(s: State, schedule: seq<nat>): State {
    if schedule == [] then s
    else Step(Exec(s, schedule[..|schedule| - 1]), schedule[|schedule| - 1])
  }

  function IsBetween(t: Thread): nat {
    if t.Between? then 1 else 0
  }

  ghost predicate Inv(s: State) {
    && s.incs == s.toggles + Sum(s.threads, IsBetween)
    && s.atomicV == s.incs % UINT_MODULUS
    && s.bitCheck == 2 * (s.toggles % 2)
    && |s.returned| == s.toggles
    && (forall i | 0 <= i < s.toggles :: s.returned[i] == i % 2)
  }

  lemma StepKeepsInv(s: State, t: nat)
    requires Inv(s)
    ensures Inv(Step(s, t))
  {
    if t < |s.threads| {
      var s' := Step(s, t);
      SumUpdate(s.threads, t, s'.threads[t], IsBetween);
      assert s'.threads == s.threads[t := s'.threads[t]];
      Increment(s.incs, UINT_MODULUS);
    }
  }

  /** In every interleaving of `n` threads: increments minus toggles are the threads between the
      two operations; the word is 0 or 2, twice the parity of the toggles; and the i-th toggle
      (counting from 0) returns the parity of i. */
  lemma {:induction false} ParityOfToggles(n: nat, schedule: seq<nat>)
    ensures Inv(Exec(Begin(n), schedule))
    ensures Exec(Begin(n), schedule).bitCheck in {0, 2}
  {
    if schedule == [] {
      SumZero(Begin(n).threads, IsBetween);
    } else {
      ParityOfToggles(n, schedule[..|schedule| - 1]);
      StepKeepsInv(Exec(Begin(n), schedule[..|schedule| - 1]), schedule[|schedule| - 1]);
    }
  }

  /** How many steps each thread has taken. */
  function Taken(n: nat, schedule: seq<nat>): (k: seq<nat>)
    ensures |k| == n
  {
    if schedule == [] then seq(n, _ => 0)
    else
      var k, t := Taken(n, schedule[..|schedule| - 1]), schedule[|schedule| - 1];
      if t < n then k[t := k[t] + 1] else k
  }

  /** Of `k` steps of the three-statement loop, those that increment and those that toggle. */
  function Increments(k: nat): nat { (k + 2) / 3 }

  function Toggles(k: nat): nat { (k + 1) / 3 }

  function Phase(t: Thread): nat {
    match t case Idle => 0 case Between => 1 case Printing(_) => 2
  }

  /** The threads are where `k` steps of each leave them, and so are the histories. */
  ghost predicate Tallied(s: State, k: seq<nat>) {
    && |s.threads| == |k| && (forall t | 0 <= t < |k| :: Phase(s.threads[t]) == k[t] % 3)
    && s.incs == Sum(k, Increments) && s.toggles == Sum(k, Toggles)
  }

  lemma OneStepMore(k: nat)
    ensures Increments(k + 1) == Increments(k) + if k % 3 == 0 then 1 else 0
    ensures Toggles(k + 1) == Toggles(k) + if k % 3 == 1 then 1 else 0
    ensures (k + 1) % 3 == if k % 3 == 2 then 0 else k % 3 + 1
  {
  }

  lemma {:induction false} StepTallies(s: State, k: seq<nat>, t: nat)
    requires Tallied(s, k) && t < |k|
    ensures Tallied(Step(s, t), k[t := k[t] + 1])
  {
    OneStepMore(k[t]);
    SumUpdate(k, t, k[t] + 1, Increments);
    SumUpdate(k, t, k[t] + 1, Toggles);
  }

  lemma {:induction false} CountsOfSchedule(n: nat, schedule: seq<nat>)
    ensures Tallied(Exec(Begin(n), schedule), Taken(n, schedule))
  {
    if schedule == [] {
      SumZero<nat>(Taken(n, []), Increments);
      SumZero<nat>(Taken(n, []), Toggles);
    } else {
      var before, t := schedule[..|schedule| - 1], schedule[|schedule| - 1];
      CountsOfSchedule(n, before);
      if t < n {
        StepTallies(Exec(Begin(n), before), Taken(n, before), t);
      }
    }
  }

  /** No operation is lost or waits: the schedule alone, by how often it names each thread,
      fixes how many increments and toggles there have been, and so both variables. */
  lemma {:induction false} EveryOperationCounts(n: nat, schedule: seq<nat>)
    ensures var e := Exec(Begin(n), schedule); var k := Taken(n, schedule);
            && e.atomicV == Sum(k, Increments) % UINT_MODULUS
            && e.bitCheck == 2 * (Sum(k, Toggles) % 2)
            && |e.returned| == Sum(k, Toggles)
  {
    CountsOfSchedule(n, schedule);
    ParityOfToggles(n, schedule);
  }
}
