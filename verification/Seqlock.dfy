/**
 The seqlock of seqlock_module.c with any number of writers and readers.

 One step of a thread is one access to shared memory.  The protected datum has
 any number of words; the module's own datum, `seq_variable`, is the one-word case.
 `completed`, `log` and the last two fields of a reader are history: no step of the
 protocol looks at them.
 */
module Seqlock {
  import opened Kernel

  datatype Thread =
    | WriterIdle                                  // before write_seqlock
    | WriterHolding                               // spin lock taken, count still even
    | WriterLoading(word: nat)                    // count odd, about to load `word` (or to close)
    | WriterStoring(word: nat, loaded: nat)       // about to store loaded + 1
    | WriterClosed                                // count even again, spin lock still held
    | ReaderIdle                                  // before read_seqbegin
    | ReaderIn(start: nat, got: seq<nat>, began: nat, earlier: nat)

  /** A read that left its retry loop: the words it saw, the writes completed when it began
      and when it was accepted, and how many reads had been accepted before it began. */
  datatype Accepted = Accepted(value: seq<nat>, began: nat, last: nat, earlier: nat)

  datatype State = State(lock: Lock, sequence: nat, words: seq<nat>, threads: seq<Thread>,
                         completed: nat, log: seq<Accepted>)

  function Step(s: State, t: nat): State {
    if |s.threads| <= t then s else
    match s.threads[t]
    case WriterIdle =>
      if s.lock.Free? then s.(lock := HeldBy(t), threads := s.threads[t := WriterHolding]) else s
    case WriterHolding =>
      s.(sequence := (s.sequence + 1) % UINT_MODULUS, threads := s.threads[t := WriterLoading(0)])
    case WriterLoading(i) =>
      if i < |s.words| then
        s.(threads := s.threads[t := WriterStoring(i, s.words[i])])
      else
        s.(sequence := (s.sequence + 1) % UINT_MODULUS, completed := s.completed + 1,
           threads := s.threads[t := WriterClosed])
    case WriterStoring(i, v) =>
      if i < |s.words| then
        s.(words := s.words[i := (v + 1) % ULONG_MODULUS], threads := s.threads[t := WriterLoading(i + 1)])
      else s
    case WriterClosed =>
      s.(lock := Free, threads := s.threads[t := WriterIdle])
    case ReaderIdle =>
      if s.sequence % 2 == 0 then
        s.(threads := s.threads[t := ReaderIn(s.sequence, [], s.completed, |s.log|)])
      else s
    case ReaderIn(start, got, began, earlier) =>
      if |got| < |s.words| then
        s.(threads := s.threads[t := ReaderIn(start, got + [s.words[|got|]], began, earlier)])
      else if s.sequence == start then
        s.(log := s.log + [Accepted(got, began, s.completed, earlier)], threads := s.threads[t := ReaderIdle])
      else
        s.(threads := s.threads[t := ReaderIdle])
  }

  /** The module's variables, updated in place by the two thread functions. */
  class SeqlockModule {
    var lock: Lock
    var sequence: nat
    const words: array<nat>
    var threads: seq<Thread>
    var completed: nat
    var log: seq<Accepted>

    ghost function Snapshot(): State
      reads this, words
    {
      State(lock, sequence, words[..], threads, completed, log)
    }

    constructor (size: nat, roles: seq<Thread>)
      requires forall t | 0 <= t < |roles| :: roles[t] in {WriterIdle, ReaderIdle}
      ensures Init(Snapshot()) && words.Length == size && threads == roles && fresh(words)
    {
      lock, sequence, completed, log := Free, 0, 0, [];
      words := new nat[size](_ => 0);
      threads := roles;
    }

    /** The next access of a thread that runs thread_function. */
    method WriterStep(t: nat)
      requires t < |threads| && !threads[t].ReaderIdle? && !threads[t].ReaderIn?
      modifies this, words
      ensures Snapshot() == Step(old(Snapshot()), t)
    {
      match threads[t] {
        case WriterIdle =>
          if lock.Free? {
            lock := HeldBy(t);
            threads := threads[t := WriterHolding];
          }
        case WriterHolding =>
          sequence := (sequence + 1) % UINT_MODULUS;
          threads := threads[t := WriterLoading(0)];
        case WriterLoading(i) =>
          if i < words.Length {
            threads := threads[t := WriterStoring(i, words[i])];
          } else {
            sequence := (sequence + 1) % UINT_MODULUS;
            completed := completed + 1;
            threads := threads[t := WriterClosed];
          }
        case WriterStoring(i, v) =>
          if i < words.Length {
            words[i] := (v + 1) % ULONG_MODULUS;
            threads := threads[t := WriterLoading(i + 1)];
          }
        case WriterClosed =>
          lock := Free;
          threads := threads[t := WriterIdle];
      }
    }

    /** The next access of a thread that runs thread_function1. */
    method ReaderStep(t: nat)
      requires t < |threads| && (threads[t].ReaderIdle? || threads[t].ReaderIn?)
      modifies this
      ensures Snapshot() == Step(old(Snapshot()), t)
    {
      match threads[t] {
        case ReaderIdle =>
          if sequence % 2 == 0 {
            threads := threads[t := ReaderIn(sequence, [], completed, |log|)];
          }
        case ReaderIn(start, got, began, earlier) =>
          if |got| < words.Length {
            threads := threads[t := ReaderIn(start, got + [words[|got|]], began, earlier)];
          } else {
            if sequence == start {
              log := log + [Accepted(got, began, completed, earlier)];
            }
            threads := threads[t := ReaderIdle];
          }
      }
    }
  }

  /** The state after the threads named by `schedule` have taken one step each, in that order. */
  function Exec(s: State, schedule: seq<nat>): State {
    if schedule == [] then s
    else Step(Exec(s, schedule[..|schedule| - 1]), schedule[|schedule| - 1])
  }

  ghost predicate Init(s: State) {
    && s.lock.Free? && s.sequence == 0 && s.completed == 0 && s.log == []
    && (forall i | 0 <= i < |s.words| :: s.words[i] == 0)
    && (forall t | 0 <= t < |s.threads| :: s.threads[t] in {WriterIdle, ReaderIdle})
  }

  /** `t` holds the spin lock inside the seqlock. */
  predicate Holds(t: Thread) {
    t.WriterHolding? || t.WriterLoading? || t.WriterStoring? || t.WriterClosed?
  }

  /** `t` is between the two increments of the sequence count. */
  predicate Writing(t: Thread) {
    t.WriterLoading? || t.WriterStoring?
  }

  predicate WriterInside(s: State) {
    s.lock.HeldBy? && s.lock.thread < |s.threads| && Writing(s.threads[s.lock.thread])
  }

  /** Every word is the one the first `version` writes produced. */
  ghost predicate Version(words: seq<nat>, version: nat) {
    forall i | 0 <= i < |words| :: words[i] == version % ULONG_MODULUS
  }

  /** `x` is what a word holds in one of the versions `low` to `high`. */
  ghost predicate Recent(x: nat, low: nat, high: nat) {
    exists v: nat :: low <= v <= high && HasVersion(x, v)
  }

  predicate HasVersion(x: nat, v: nat) {
    x == v % ULONG_MODULUS
  }

  /** The newest version any word can hold: the write under way counts. */
  function Newest(s: State): nat {
    s.completed + if WriterInside(s) then 1 else 0
  }

  /** How far the writer inside has come: words before `k` are new, the others old. */
  ghost predicate Partial(words: seq<nat>, k: nat, version: nat) {
    && k <= |words|
    && (forall i | 0 <= i < k :: words[i] == (version + 1) % ULONG_MODULUS)
    && (forall i | k <= i < |words| :: words[i] == version % ULONG_MODULUS)
  }

  ghost predicate LockInv(s: State) {
    && (s.lock.HeldBy? ==> s.lock.thread < |s.threads| && Holds(s.threads[s.lock.thread]))
    && (forall t | 0 <= t < |s.threads| && Holds(s.threads[t]) :: s.lock == HeldBy(t))
  }

  ghost predicate DataInv(s: State) {
    && s.sequence == (2 * s.completed + if WriterInside(s) then 1 else 0) % UINT_MODULUS
    && (!WriterInside(s) ==> Version(s.words, s.completed))
    && (WriterInside(s) ==>
          match s.threads[s.lock.thread]
          case WriterLoading(i) => Partial(s.words, i, s.completed)
          case WriterStoring(i, v) => i < |s.words| && Partial(s.words, i, s.completed) && v == s.words[i]
          case _ => true)
  }

  ghost predicate ReaderInv(s: State, r: Thread)
    requires r.ReaderIn?
  {
    && r.start == 2 * r.began % UINT_MODULUS && r.start % 2 == 0
    && r.began <= s.completed && |r.got| <= |s.words|
    && (r.began == s.completed && !WriterInside(s) ==> Version(r.got, r.began))
    && (forall k | 0 <= k < |r.got| :: Recent(r.got[k], r.began, Newest(s)))
    && r.earlier <= |s.log|
    && (forall i | 0 <= i < r.earlier :: s.log[i].last <= r.began)
  }

  ghost predicate AcceptedInv(s: State, j: nat)
    requires j < |s.log|
  {
    var a := s.log[j];
    && a.began <= a.last <= s.completed
    && (a.last - a.began) % 0x8000_0000 == 0
    && |a.value| == |s.words|
    && (a.last - a.began < 0x8000_0000 ==> Version(a.value, a.began))
    && (forall k | 0 <= k < |a.value| :: Recent(a.value[k], a.began, a.last))
    && a.earlier <= j
    && (forall i | 0 <= i < a.earlier :: s.log[i].last <= a.began)
  }

  ghost predicate Inv(s: State) {
    && LockInv(s)
    && DataInv(s)
    && (forall t | 0 <= t < |s.threads| && s.threads[t].ReaderIn? :: ReaderInv(s, s.threads[t]))
    && (forall j | 0 <= j < |s.log| :: AcceptedInv(s, j))
  }

  /** Equal 32-bit counts, the first of them even: no writer is inside and the number of
      writes between them is a multiple of 2^31. */
  lemma SameCount(began: nat, completed: nat, inside: bool)
    requires began <= completed
    ensures 2 * began % UINT_MODULUS == (2 * completed + if inside then 1 else 0) % UINT_MODULUS
       <==> !inside && (completed - began) % 0x8000_0000 == 0
  {
    var odd := if inside then 1 else 0;
    var q, r := (completed - began) / 0x8000_0000, (completed - began) % 0x8000_0000;
    var s, u := 2 * began / UINT_MODULUS, 2 * began % UINT_MODULUS;
    assert 2 * completed + odd == UINT_MODULUS * (s + q) + (u + 2 * r + odd);
    Residue(s + q, u + 2 * r + odd);
  }

  lemma Residue(q: nat, x: nat)
    requires x < 2 * UINT_MODULUS
    ensures (UINT_MODULUS * q + x) % UINT_MODULUS == if x < UINT_MODULUS then x else x - UINT_MODULUS
  {
  }

  lemma StepKeepsLock(s: State, t: nat)
    requires LockInv(s)
    ensures LockInv(Step(s, t))
  {
  }

  lemma StepKeepsData(s: State, t: nat)
    requires LockInv(s) && DataInv(s)
    ensures DataInv(Step(s, t))
  {
    Increment(2 * s.completed, UINT_MODULUS);
    Increment(2 * s.completed + 1, UINT_MODULUS);
    Increment(s.completed, ULONG_MODULUS);
    if t < |s.threads| {
      assert WriterInside(Step(s, t)) ==> s.lock.HeldBy? || Step(s, t).lock == HeldBy(t);
    }
  }

  /** Every word holds the version of the completed writes or of the one under way. */
  lemma WordIsRecent(s: State, k: nat)
    requires DataInv(s) && k < |s.words|
    ensures Recent(s.words[k], s.completed, Newest(s))
  {
    assert HasVersion(s.words[k], s.completed) || HasVersion(s.words[k], s.completed + 1);
  }

  lemma NewestGrows(s: State, t: nat)
    requires LockInv(s)
    ensures Newest(s) <= Newest(Step(s, t)) && s.completed <= Step(s, t).completed
  {
    if t < |s.threads| {
      assert WriterInside(s) && s.lock.thread != t ==> WriterInside(Step(s, t));
    }
  }

  lemma RecentWiden(x: nat, low: nat, high: nat, low': nat, high': nat)
    requires Recent(x, low, high) && low' <= low && high <= high'
    ensures Recent(x, low', high')
  {
    var v: nat :| low <= v <= high && HasVersion(x, v);
    assert low' <= v <= high' && HasVersion(x, v);
  }

  lemma StepKeepsReaders(s: State, t: nat)
    requires Inv(s)
    ensures var s' := Step(s, t);
            forall r | 0 <= r < |s'.threads| && s'.threads[r].ReaderIn? :: ReaderInv(s', s'.threads[r])
  {
    var s' := Step(s, t);
    forall r | 0 <= r < |s'.threads| && s'.threads[r].ReaderIn?
      ensures ReaderInv(s', s'.threads[r])
    {
      StepKeepsReader(s, t, r);
    }
  }

  lemma StepKeepsReader(s: State, t: nat, r: nat)
    requires Inv(s) && r < |s.threads| && Step(s, t).threads[r].ReaderIn?
    ensures ReaderInv(Step(s, t), Step(s, t).threads[r])
  {
    assert forall i | 0 <= i < |s.log| :: AcceptedInv(s, i) ==> s.log[i].last <= s.completed;
    if r != t || s.threads[r].ReaderIn? {
      assert ReaderInv(s, s.threads[r]);
      GotStaysRecent(s, t, r);
    }
  }

  lemma GotStaysRecent(s: State, t: nat, r: nat)
    requires LockInv(s) && DataInv(s) && r < |s.threads| && s.threads[r].ReaderIn? && ReaderInv(s, s.threads[r])
    requires Step(s, t).threads[r].ReaderIn?
    ensures var e := Step(s, t).threads[r]; forall k | 0 <= k < |e.got| :: Recent(e.got[k], e.began, Newest(Step(s, t)))
  {
    var before, after := s.threads[r], Step(s, t).threads[r];
    NewestGrows(s, t);
    forall k | 0 <= k < |after.got|
      ensures Recent(after.got[k], after.began, Newest(Step(s, t)))
    {
      if k < |before.got| {
        RecentWiden(before.got[k], before.began, Newest(s), before.began, Newest(Step(s, t)));
      } else {
        WordIsRecent(s, k);
        RecentWiden(s.words[k], s.completed, Newest(s), before.began, Newest(Step(s, t)));
      }
    }
  }

  lemma StepKeepsLog(s: State, t: nat)
    requires Inv(s)
    ensures var s' := Step(s, t); forall j | 0 <= j < |s'.log| :: AcceptedInv(s', j)
  {
    var s' := Step(s, t);
    forall j | 0 <= j < |s'.log|
      ensures AcceptedInv(s', j)
    {
      if j < |s.log| {
        assert AcceptedInv(s, j);
      } else {
        var r := s.threads[t];
        assert ReaderInv(s, r);
        SameCount(r.began, s.completed, WriterInside(s));
      }
    }
  }

  lemma {:induction false} ExecInv(s: State, schedule: seq<nat>)
    requires Init(s)
    ensures Inv(Exec(s, schedule))
    ensures |Exec(s, schedule).words| == |s.words|
  {
    if schedule != [] {
      var before := schedule[..|schedule| - 1];
      var t := schedule[|schedule| - 1];
      ExecInv(s, before);
      StepKeepsLock(Exec(s, before), t);
      StepKeepsData(Exec(s, before), t);
      StepKeepsReaders(Exec(s, before), t);
      StepKeepsLog(Exec(s, before), t);
    }
  }

  // ----- What the protocol guarantees over every schedule

  /** The count is twice the completed writes, plus one while a writer is inside; there is
      at most one such writer, and with none inside every word holds the number of writes. */
  lemma CountLaw(s: State, schedule: seq<nat>)
    requires Init(s)
    ensures var e := Exec(s, schedule);
            && e.sequence == (2 * e.completed + if WriterInside(e) then 1 else 0) % UINT_MODULUS
            && (forall t, u | 0 <= t < |e.threads| && 0 <= u < |e.threads| && Holds(e.threads[t]) && Holds(e.threads[u]) :: t == u)
            && (forall t | 0 <= t < |e.threads| && Writing(e.threads[t]) :: WriterInside(e))
            && (!WriterInside(e) ==> Version(e.words, e.completed))
  {
    ExecInv(s, schedule);
  }

  /** A read that left its loop saw, in every word, exactly the writes completed at its
      read_seqbegin, provided fewer than 2^31 writes completed meanwhile. */
  lemma AcceptedReadIsConsistent(s: State, schedule: seq<nat>, j: nat)
    requires Init(s) && j < |Exec(s, schedule).log|
    ensures var a := Exec(s, schedule).log[j];
            && |a.value| == |s.words| && a.began <= a.last
            && (a.last - a.began < 0x8000_0000 ==> a.last == a.began && Version(a.value, a.began))
  {
    ExecInv(s, schedule);
    assert AcceptedInv(Exec(s, schedule), j);
  }

  /** Whatever the number of writes: every word of an accepted read holds the version of some
      moment between its read_seqbegin and its acceptance. */
  lemma AcceptedWordsAreRecent(s: State, schedule: seq<nat>, j: nat, k: nat)
    requires Init(s) && j < |Exec(s, schedule).log| && k < |s.words|
    ensures var a := Exec(s, schedule).log[j];
            k < |a.value| && Recent(a.value[k], a.began, a.last) && a.last <= Exec(s, schedule).completed
  {
    ExecInv(s, schedule);
    assert AcceptedInv(Exec(s, schedule), j);
  }

  /** Below 2^64 writes the words are the versions themselves, so they compare as these do. */
  lemma RecentOrdered(x: nat, low: nat, high: nat, y: nat, low': nat, high': nat)
    requires Recent(x, low, high) && Recent(y, low', high') && high <= low' && high' < ULONG_MODULUS
    ensures x <= y
  {
  }

  /** Read `j` began after read `i` was accepted.  However many writes pass, every word `i`
      returned is of a version no newer than `last`, every word `j` returns of one no older
      than `began`, and `last` comes first; so until the words wrap at 2^64 no word of `j` is
      smaller than any word of `i`.  With fewer than 2^31 writes during each read both are
      whole versions. */
  lemma {:induction false} AcceptedReadsNeverGoBack(s: State, schedule: seq<nat>, i: nat, j: nat)
    requires Init(s)
    requires j < |Exec(s, schedule).log| && i < Exec(s, schedule).log[j].earlier
    ensures i < j
    ensures var e := Exec(s, schedule); var a, b := e.log[i], e.log[j];
            && |a.value| == |s.words| && |b.value| == |s.words| && a.last <= b.began
            && (forall k | 0 <= k < |s.words| :: Recent(a.value[k], a.began, a.last) && Recent(b.value[k], b.began, b.last))
            && (e.completed < ULONG_MODULUS ==>
                  forall k, m | 0 <= k < |s.words| && 0 <= m < |s.words| :: a.value[k] <= b.value[m])
            && (a.last - a.began < 0x8000_0000 && b.last - b.began < 0x8000_0000 ==>
                  Version(a.value, a.began) && Version(b.value, b.began) && a.began <= b.began)
  {
    ExecInv(s, schedule);
    var e := Exec(s, schedule);
    assert AcceptedInv(e, j) && AcceptedInv(e, i);
    var a, b := e.log[i], e.log[j];
    if e.completed < ULONG_MODULUS {
      forall k, m | 0 <= k < |s.words| && 0 <= m < |s.words|
        ensures a.value[k] <= b.value[m]
      {
        RecentOrdered(a.value[k], a.began, a.last, b.value[m], b.began, b.last);
      }
    }
  }

  /** A reader that has loaded every word retries if and only if a writer is inside or the
      number of writes completed since it began is not a multiple of 2^31. */
  lemma RetryExactly(s: State, schedule: seq<nat>, t: nat)
    requires Init(s)
    requires var e := Exec(s, schedule);
             t < |e.threads| && e.threads[t].ReaderIn? && |e.threads[t].got| == |e.words|
    ensures var e := Exec(s, schedule);
            |Step(e, t).log| == |e.log|
            <==> WriterInside(e) || (e.completed - e.threads[t].began) % 0x8000_0000 != 0
  {
    ExecInv(s, schedule);
    var e := Exec(s, schedule);
    assert ReaderInv(e, e.threads[t]);
    SameCount(e.threads[t].began, e.completed, WriterInside(e));
  }

  // ----- Every thread can finish

  /** `n` accesses of thread `t` with nothing in between. */
  function Alone(s: State, t: nat, n: nat): State
    decreases n
  {
    if n == 0 then s else Alone(Step(s, t), t, n - 1)
  }

  /** The schedule of `n` accesses of thread `t`. */
  function Only(t: nat, n: nat): seq<nat> {
    if n == 0 then [] else [t] + Only(t, n - 1)
  }

  lemma {:induction false} AloneIsRun(s: State, t: nat, n: nat)
    ensures Exec(s, Only(t, n)) == Alone(s, t, n)
    decreases n
  {
    if n > 0 {
      AloneIsRun(Step(s, t), t, n - 1);
      ExecConcat(s, [t], Only(t, n - 1));
      assert Exec(s, [t]) == Step(Exec(s, []), t);
    }
  }

  lemma {:induction false} AloneTwice(s: State, t: nat, n: nat, m: nat)
    ensures Alone(s, t, n + m) == Alone(Alone(s, t, n), t, m)
    decreases n
  {
    if n > 0 {
      AloneTwice(Step(s, t), t, n - 1, m);
    }
  }

  function Loaded(s: State, r: Thread): Thread
    requires r.ReaderIn? && |r.got| <= |s.words|
  {
    r.(got := r.got + s.words[|r.got|..])
  }

  /** A reader that has read `got` so far loads the remaining words. */
  lemma {:induction false} LoadsTheRest(s: State, t: nat)
    requires t < |s.threads| && s.threads[t].ReaderIn? && |s.threads[t].got| <= |s.words|
    ensures Alone(s, t, |s.words| - |s.threads[t].got|) == s.(threads := s.threads[t := Loaded(s, s.threads[t])])
    decreases |s.words| - |s.threads[t].got|
  {
    var r := s.threads[t];
    if |r.got| == |s.words| {
      assert r.got + s.words[|r.got|..] == r.got;
      assert s.threads[t := r] == s.threads;
    } else {
      var s1 := Step(s, t);
      LoadsTheRest(s1, t);
      assert (r.got + [s.words[|r.got|]]) + s.words[|r.got| + 1..] == r.got + s.words[|r.got|..];
      var after := Loaded(s, r);
      assert s.threads[t := s1.threads[t]][t := after] == s.threads[t := after];
    }
  }

  /** From read_seqbegin, with an even count: one section, accepted. */
  lemma {:induction false} ReadsAfresh(s: State, t: nat)
    requires t < |s.threads| && s.threads[t].ReaderIdle? && s.sequence % 2 == 0
    ensures var e := Alone(s, t, |s.words| + 2);
            && e.log == s.log + [Accepted(s.words, s.completed, s.completed, |s.log|)]
            && e == s.(log := e.log)
  {
    var r := ReaderIn(s.sequence, [], s.completed, |s.log|);
    var s1 := Step(s, t);
    assert s1 == s.(threads := s.threads[t := r]);
    LoadsTheRest(s1, t);
    AloneTwice(s, t, 1, |s.words|);
    AloneTwice(s, t, 1 + |s.words|, 1);
    assert Alone(s, t, 1) == Alone(s1, t, 0) == s1;
    var s2 := Alone(s1, t, |s.words|);
    assert [] + s.words[0..] == s.words;
    assert s2.threads[t] == ReaderIn(s.sequence, s.words, s.completed, |s.log|);
    assert Alone(s2, t, 1) == Alone(Step(s2, t), t, 0) == Step(s2, t);
    assert Step(s2, t).threads == s.threads;
  }

  /** From inside a section whose count has changed: it is left and begun again. */
  lemma {:induction false} ReadsAgain(s: State, t: nat)
    requires t < |s.threads| && s.threads[t].ReaderIn? && |s.threads[t].got| <= |s.words|
    requires s.threads[t].start != s.sequence && s.sequence % 2 == 0
    ensures var e := Alone(s, t, |s.words| - |s.threads[t].got| + 1 + (|s.words| + 2));
            e.log == s.log + [Accepted(s.words, s.completed, s.completed, |s.log|)] && e.completed == s.completed && e.words == s.words
  {
    var n := |s.words| - |s.threads[t].got|;
    LoadsTheRest(s, t);
    var s1 := Alone(s, t, n);
    var s2 := Step(s1, t);
    assert s2 == s1.(threads := s1.threads[t := ReaderIdle]);
    assert Alone(s1, t, 1) == Alone(s2, t, 0) == s2;
    AloneTwice(s, t, n, 1);
    AloneTwice(s, t, n + 1, |s.words| + 2);
    ReadsAfresh(s2, t);
  }

  /** From inside a section with the count unchanged: it is finished and accepted. */
  lemma {:induction false} ReadsOn(s: State, t: nat)
    requires t < |s.threads| && s.threads[t].ReaderIn? && |s.threads[t].got| <= |s.words| && s.threads[t].start == s.sequence
    ensures var r := s.threads[t]; var e := Alone(s, t, |s.words| - |r.got| + 1);
            && e.log == s.log + [Accepted(r.got + s.words[|r.got|..], r.began, s.completed, r.earlier)]
            && e.completed == s.completed && e.words == s.words
  {
    var n := |s.words| - |s.threads[t].got|;
    LoadsTheRest(s, t);
    var s1 := Alone(s, t, n);
    AloneTwice(s, t, n, 1);
    assert Alone(s1, t, 1) == Alone(Step(s1, t), t, 0) == Step(s1, t);
  }

  predicate IsReader(r: Thread) {
    r.ReaderIdle? || r.ReaderIn?
  }

  /** `e` has one more accepted read than `s`; a read begun afresh is of the current version. */
  ghost predicate OneMoreRead(s: State, e: State, afresh: bool) {
    && |e.log| == |s.log| + 1 && e.log[..|s.log|] == s.log && e.completed == s.completed && e.words == s.words
    && var a := e.log[|s.log|];
       && a.last == s.completed && |a.value| == |s.words|
       && (afresh ==> a.began == s.completed && a.value == s.words && Version(a.value, s.completed))
  }

  /** The next accepted read of thread `t` is begun in state `s` or later. */
  predicate BeginsAfresh(s: State, t: nat)
    requires t < |s.threads| && IsReader(s.threads[t])
  {
    s.threads[t].ReaderIdle? || s.threads[t].start != s.sequence
  }

  ghost predicate ReadsIn(s: State, t: nat, n: nat) {
    && n <= 2 * |s.words| + 3 && t < |s.threads| && IsReader(s.threads[t])
    && OneMoreRead(s, Exec(s, Only(t, n)), BeginsAfresh(s, t))
  }

  /** With no writer inside, a reader that runs alone, wherever it stands, has one more accepted
      read within 2 * |words| + 3 accesses; unless its section goes on with the count it began
      with, that read is of the current version. */
  lemma {:induction false} ReaderFinishes(s: State, schedule: seq<nat>, t: nat)
    requires Init(s)
    requires var e := Exec(s, schedule); !WriterInside(e) && t < |e.threads| && IsReader(e.threads[t])
    ensures exists n :: ReadsIn(Exec(s, schedule), t, n)
  {
    ExecInv(s, schedule);
    var e := Exec(s, schedule);
    assert e.threads[t].ReaderIn? ==> ReaderInv(e, e.threads[t]);
    Even(e.completed);
    var n := ReaderGoesOn(e, t);
  }

  lemma Even(completed: nat)
    ensures 2 * completed % UINT_MODULUS % 2 == 0
  {
  }

  lemma {:induction false} ReaderGoesOn(s: State, t: nat) returns (n: nat)
    requires t < |s.threads| && IsReader(s.threads[t]) && s.sequence % 2 == 0 && Version(s.words, s.completed)
    requires s.threads[t].ReaderIn? ==> |s.threads[t].got| <= |s.words|
    ensures ReadsIn(s, t, n)
  {
    var r := s.threads[t];
    if r.ReaderIdle? {
      n := |s.words| + 2;
      ReadsAfresh(s, t);
    } else if r.start != s.sequence {
      n := |s.words| - |r.got| + 1 + (|s.words| + 2);
      ReadsAgain(s, t);
    } else {
      n := |s.words| - |r.got| + 1;
      ReadsOn(s, t);
    }
    AloneIsRun(s, t, n);
  }

  /** How many accesses a writer is from the end of its turn. */
  function StepsLeft(t: Thread, size: nat): int {
    match t
    case WriterHolding => 2 * size + 3
    case WriterLoading(i) => 2 * (size - i) + 2
    case WriterStoring(i, _) => 2 * (size - i) + 1
    case WriterClosed => 1
    case _ => 0
  }

  lemma {:induction false} HolderGoesOn(s: State, t: nat)
    requires LockInv(s) && DataInv(s) && t < |s.threads| && Holds(s.threads[t])
    ensures var n := StepsLeft(s.threads[t], |s.words|);
            && 1 <= n <= 2 * |s.words| + 3
            && var e := Alone(s, t, n);
               && e.lock.Free? && e.threads == s.threads[t := WriterIdle] && |e.words| == |s.words|
               && Version(e.words, e.completed)
               && e.completed == s.completed + if s.threads[t].WriterClosed? then 0 else 1
    decreases StepsLeft(s.threads[t], |s.words|)
  {
    assert s.lock == HeldBy(t);
    var s1 := Step(s, t);
    StepKeepsLock(s, t);
    StepKeepsData(s, t);
    if !s.threads[t].WriterClosed? {
      HolderGoesOn(s1, t);
      assert s1.threads[t := WriterIdle] == s.threads[t := WriterIdle];
    }
  }

  ghost predicate EndsTurnIn(s: State, t: nat, n: nat)
    requires t < |s.threads|
  {
    && n <= 2 * |s.words| + 3
    && var e := Exec(s, Only(t, n));
       && e.lock.Free? && e.threads == s.threads[t := WriterIdle]
       && e.completed == s.completed + if s.threads[t].WriterClosed? then 0 else 1
  }

  /** From every reachable state the writer that holds the lock finishes its turn within
      2 * |words| + 3 accesses of its own: the lock is free and its write is completed. */
  lemma {:induction false} HolderFinishes(s: State, schedule: seq<nat>, t: nat)
    requires Init(s)
    requires var e := Exec(s, schedule); t < |e.threads| && Holds(e.threads[t])
    ensures exists n :: EndsTurnIn(Exec(s, schedule), t, n)
  {
    ExecInv(s, schedule);
    var e := Exec(s, schedule);
    HolderGoesOn(e, t);
    AloneIsRun(e, t, StepsLeft(e.threads[t], |e.words|));
    assert EndsTurnIn(e, t, StepsLeft(e.threads[t], |e.words|));
  }

  lemma {:induction false} IdleWriterGoesOn(s: State, t: nat)
    requires LockInv(s) && DataInv(s) && t < |s.threads| && s.threads[t].WriterIdle? && s.lock.Free?
    ensures var e := Alone(s, t, 2 * |s.words| + 4);
            e.lock.Free? && e.threads == s.threads && e.completed == s.completed + 1 && Version(e.words, e.completed)
  {
    var s1 := Step(s, t);
    StepKeepsLock(s, t);
    StepKeepsData(s, t);
    HolderGoesOn(s1, t);
    assert Alone(s, t, 2 * |s.words| + 4) == Alone(s1, t, 2 * |s.words| + 3);
    assert s1.threads[t := WriterIdle] == s.threads;
  }

  /** With the lock free a writer that runs alone completes one more write, and every word is
      of its version. */
  lemma {:induction false} WriterFinishes(s: State, schedule: seq<nat>, t: nat)
    requires Init(s)
    requires var e := Exec(s, schedule); e.lock.Free? && t < |e.threads| && e.threads[t].WriterIdle?
    ensures var e := Exec(s, schedule); var e' := Exec(e, Only(t, 2 * |s.words| + 4));
            && e'.lock.Free? && e'.threads == e.threads
            && e'.completed == e.completed + 1 && Version(e'.words, e.completed + 1)
  {
    ExecInv(s, schedule);
    IdleWriterGoesOn(Exec(s, schedule), t);
    AloneIsRun(Exec(s, schedule), t, 2 * |s.words| + 4);
  }

  // ----- The bound 2^31 is exact

  /** Every accepted read during which at most `bound` writes completed is consistent. */
  ghost predicate Guarantees(bound: nat) {
    forall s, schedule, j: nat |
      Init(s) && j < |Exec(s, schedule).log| && Exec(s, schedule).log[j].last - Exec(s, schedule).log[j].began <= bound ::
      Version(Exec(s, schedule).log[j].value, Exec(s, schedule).log[j].began)
  }

  lemma {:induction false} ExecConcat(s: State, a: seq<nat>, b: seq<nat>)
    ensures Exec(s, a + b) == Exec(Exec(s, a), b)
  {
    if b == [] {
      assert a + b == a;
    } else {
      var n := |b| - 1;
      assert (a + b)[..|a + b| - 1] == a + b[..n];
      ExecConcat(s, a, b[..n]);
    }
  }

  /** `n` undisturbed turns of writer 0 in a one-word module. */
  function Writes(n: nat): seq<nat> {
    if n == 0 then [] else Writes(n - 1) + [0, 0, 0, 0, 0, 0]
  }

  ghost predicate WriterZeroIdle(s: State, reader: Thread) {
    && s.lock.Free? && |s.words| == 1 && s.threads == [WriterIdle, reader] && s.log == []
    && s.sequence == 2 * s.completed % UINT_MODULUS && s.words[0] == s.completed % ULONG_MODULUS
  }

  /** One turn of the writer, statement by statement. */
  lemma WriterTurn(s: State, reader: Thread)
    requires WriterZeroIdle(s, reader)
    ensures Step(Step(Step(Step(Step(Step(s, 0), 0), 0), 0), 0), 0)
         == s.(sequence := ((s.sequence + 1) % UINT_MODULUS + 1) % UINT_MODULUS,
               words := [(s.words[0] + 1) % ULONG_MODULUS], completed := s.completed + 1)
  {
    var v := s.words[0];
    var odd := s.(lock := HeldBy(0), sequence := (s.sequence + 1) % UINT_MODULUS);
    var written := odd.(words := [(v + 1) % ULONG_MODULUS]);
    assert Step(s, 0) == s.(lock := HeldBy(0), threads := [WriterHolding, reader]);
    assert Step(Step(s, 0), 0) == odd.(threads := [WriterLoading(0), reader]);
    assert Step(Step(Step(s, 0), 0), 0) == odd.(threads := [WriterStoring(0, v), reader]);
    var s4 := written.(threads := [WriterLoading(1), reader]);
    assert Step(odd.(threads := [WriterStoring(0, v), reader]), 0) == s4;
    var s5 := written.(sequence := (odd.sequence + 1) % UINT_MODULUS, completed := s.completed + 1,
                       threads := [WriterClosed, reader]);
    assert Step(s4, 0) == s5;
    assert Step(s5, 0).threads == s.threads;
  }

  lemma OneWrite(s: State, reader: Thread)
    requires WriterZeroIdle(s, reader)
    ensures var e := Exec(s, [0, 0, 0, 0, 0, 0]); WriterZeroIdle(e, reader) && e.completed == s.completed + 1
  {
    WriterTurn(s, reader);
    SixSteps(s, 0);
    Increment(2 * s.completed, UINT_MODULUS);
    Increment(2 * s.completed + 1, UINT_MODULUS);
    Increment(s.completed, ULONG_MODULUS);
  }

  lemma SixSteps(s: State, t: nat)
    ensures Exec(s, [t, t, t, t, t, t]) == Step(Step(Step(Step(Step(Step(s, t), t), t), t), t), t)
  {
    assert Exec(s, [t]) == Step(Exec(s, []), t);
    assert [t, t][..1] == [t] && [t, t, t][..2] == [t, t] && [t, t, t, t][..3] == [t, t, t];
    assert [t, t, t, t, t][..4] == [t, t, t, t] && [t, t, t, t, t, t][..5] == [t, t, t, t, t];
    assert Exec(s, [t, t]) == Step(Exec(s, [t]), t);
    assert Exec(s, [t, t, t]) == Step(Exec(s, [t, t]), t);
    assert Exec(s, [t, t, t, t]) == Step(Exec(s, [t, t, t]), t);
    assert Exec(s, [t, t, t, t, t]) == Step(Exec(s, [t, t, t, t]), t);
  }

  lemma {:induction false} ManyWrites(s: State, reader: Thread, n: nat)
    requires WriterZeroIdle(s, reader)
    ensures var e := Exec(s, Writes(n)); WriterZeroIdle(e, reader) && e.completed == s.completed + n
  {
    if n > 0 {
      ManyWrites(s, reader, n - 1);
      OneWrite(Exec(s, Writes(n - 1)), reader);
      ExecConcat(s, Writes(n - 1), [0, 0, 0, 0, 0, 0]);
    }
  }

  /** A reader begins, 2^31 writes complete, and the reader then accepts the value 2^31
      although no write had completed when it began. */
  lemma WrappedReadIsAccepted(n: nat)
    requires n == 0x8000_0000
    ensures var s := State(Free, 0, [0], [WriterIdle, ReaderIdle], 0, []);
            && Init(s)
            && Exec(s, [1] + Writes(n) + [1, 1]).log == [Accepted([n], 0, n, 0)]
  {
    var s := State(Free, 0, [0], [WriterIdle, ReaderIdle], 0, []);
    var reading := ReaderIn(0, [], 0, 0);
    var s1 := s.(threads := [WriterIdle, reading]);
    assert Exec(s, [1]) == s1 by {
      assert Exec(s, [1]) == Step(Exec(s, []), 1);
    }
    ManyWrites(s1, reading, n);
    var s2 := Exec(s1, Writes(n));
    LoadAndAccept(s2, n);
    ExecConcat(s, [1], Writes(n));
    ExecConcat(s, [1] + Writes(n), [1, 1]);
  }

  lemma LoadAndAccept(s: State, n: nat)
    requires n == 0x8000_0000
    requires WriterZeroIdle(s, ReaderIn(0, [], 0, 0)) && s.completed == n
    ensures Exec(s, [1, 1]).log == [Accepted([n], 0, n, 0)]
  {
    var s1 := s.(threads := [WriterIdle, ReaderIn(0, [n], 0, 0)]);
    assert [] + [s.words[0]] == [n];
    assert s.threads[1 := ReaderIn(0, [n], 0, 0)] == s1.threads;
    assert Step(s, 1) == s1;
    assert Exec(s, [1]) == Step(Exec(s, []), 1);
    assert [1, 1][..1] == [1];
    assert Exec(s, [1, 1]) == Step(Exec(s, [1]), 1);
  }

  /** The 32-bit count protects a read exactly against fewer than 2^31 writes. */
  lemma GuaranteeIsExact(bound: nat)
    ensures Guarantees(bound) <==> bound < 0x8000_0000
  {
    if bound < 0x8000_0000 {
      forall s, schedule, j: nat |
        Init(s) && j < |Exec(s, schedule).log| && Exec(s, schedule).log[j].last - Exec(s, schedule).log[j].began <= bound
        ensures Version(Exec(s, schedule).log[j].value, Exec(s, schedule).log[j].began)
      {
        AcceptedReadIsConsistent(s, schedule, j);
      }
    } else {
      var n: nat := 0x8000_0000;
      WrappedReadIsAccepted(n);
      var s := State(Free, 0, [0], [WriterIdle, ReaderIdle], 0, []);
      var a := Exec(s, [1] + Writes(n) + [1, 1]).log[0];
      assert !Version(a.value, a.began) by {
        assert a.value[0] == n;
      }
    }
  }
}
