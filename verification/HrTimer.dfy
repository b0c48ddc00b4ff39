/**
 hrtimer_module.c: a timer that its callback moves on by whole intervals.  Times are
 nanoseconds of the monotonic clock, without the saturation of ktime_t after 292 years.
 */
module HrTimer {
  import opened Kernel

  const TIMEOUT_SEC: int := 4
  const TIMEOUT_NSEC: int := 1_000_000_000

  /** ktime_set(sec, nsec) */
  function KtimeSet(sec: int, nsec: int): int { sec * 1_000_000_000 + nsec }

  /** The interval of 4 s and 10^9 ns. */
  const INTERVAL: int := 5_000_000_000

  /** `e` is the least point of the grid first + k * INTERVAL that is later than `now`. */
  ghost predicate LeastAfter(first: int, now: int, e: int) {
    (e - first) % INTERVAL == 0 && e - INTERVAL <= now < e
  }

  class HrTimerModule {
    var expires: int
    var timerCount: int
    var target: int

    /** hello_init at time `now`. */
    constructor (now: int)
      ensures expires == now + INTERVAL && timerCount == 0 && target == now + 500_000
    {
      target := now + 500 * 1000;
      expires := now + KtimeSet(TIMEOUT_SEC, TIMEOUT_NSEC);
      timerCount := 0;
    }

    /** hrtimer_forward_now at time `now`: the number of intervals the expiry moved. */
    method HrtimerForwardNow(now: int) returns (overruns: nat)
      modifies this`expires
      ensures expires == Forward(old(expires), now)
      ensures expires == old(expires) + overruns * INTERVAL
      ensures overruns == 0 <==> now < old(expires)
    {
      var delta := now - expires;
      if delta < 0 {
        return 0;
      }
      overruns := 1;
      if delta >= INTERVAL {
        overruns := delta / INTERVAL;
        expires := expires + INTERVAL * overruns;
        if expires > now {
          return;
        }
        overruns := overruns + 1;
      }
      expires := expires + INTERVAL;
    }

    /** The callback, entered at `fired` and forwarding the timer at `now`; prints the count
        before its increment and the distance to the target time. */
    method TimerCallback(fired: int, now: int) returns (printedCount: int, deltaNs: int)
      modifies this`expires, this`timerCount
      ensures expires == Forward(old(expires), now) && timerCount == Int32(old(timerCount) + 1)
      ensures printedCount == old(timerCount) && deltaNs == fired - target
    {
      printedCount := timerCount;
      timerCount := Int32(timerCount + 1);
      deltaNs := fired - target;
      var _ := HrtimerForwardNow(now);
    }
  }

  /** The expiry that forwarding a timer due at `expires` leaves behind. */
  function Forward(expires: int, now: int): int {
    if now < expires then expires else expires + ((now - expires) / INTERVAL + 1) * INTERVAL
  }

  /** The expiry after callbacks that forward the timer at the times `nows`. */
  function Expiry(first: int, nows: seq<int>): int {
    if nows == [] then first else Forward(Expiry(first, nows[..|nows| - 1]), nows[|nows| - 1])
  }

  /** No callback runs before the timer expires. */
  ghost predicate Fires(first: int, nows: seq<int>) {
    forall i | 0 <= i < |nows| :: Expiry(first, nows[..i]) <= nows[i]
  }

  lemma ForwardFromGrid(first: int, before: int, now: int)
    requires (before - first) % INTERVAL == 0 && before <= now
    ensures Forward(before, now) == first + ((now - first) / INTERVAL + 1) * INTERVAL
    ensures LeastAfter(first, now, Forward(before, now))
  {
    var k := (before - first) / INTERVAL;
    assert before == first + k * INTERVAL;
    assert (now - first) / INTERVAL == (now - before) / INTERVAL + k;
  }

  /** However late the callbacks run, the expiry after the last of them is the least grid point
      later than its current time, the same as if all the earlier ones had been on time: the
      grid point is determined by the first expiry and the last time alone. */
  lemma {:induction false} LatenessNeverAccumulates(first: int, nows: seq<int>)
    requires |nows| > 0 && Fires(first, nows)
    ensures LeastAfter(first, nows[|nows| - 1], Expiry(first, nows))
    ensures Expiry(first, nows) == first + ((nows[|nows| - 1] - first) / INTERVAL + 1) * INTERVAL
    ensures Expiry(first, nows) > Expiry(first, nows[..|nows| - 1])
  {
    var n := |nows| - 1;
    var now := nows[n];
    assert nows[..n + 1] == nows;
    var before := Expiry(first, nows[..n]);
    assert before <= now;
    assert (before - first) % INTERVAL == 0 by {
      if n > 0 {
        assert forall i | 0 <= i < n :: nows[..n][..i] == nows[..i];
        LatenessNeverAccumulates(first, nows[..n]);
      }
    }
    ForwardFromGrid(first, before, now);
  }
}
