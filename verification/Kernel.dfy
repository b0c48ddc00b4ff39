/** Integer widths and small datatypes shared by the modules. */
module Kernel {

  type Byte = x: int | 0 <= x < 256

  datatype Option<T> = None | Some(value: T)

  /** 2^32: `unsigned int`, `uint32_t` and `atomic_t` wrap here. */
  const UINT_MODULUS: nat := 0x1_0000_0000

  /** 2^64: `unsigned long` wraps here. */
  const ULONG_MODULUS: nat := 0x1_0000_0000_0000_0000

  /** A mutex or the spin lock inside a seqlock. */
  datatype Lock = Free | HeldBy(thread: nat)

  /** Two's-complement value of a 32-bit `int` that holds `x`. */
  function Int32(x: int): (r: int)
    ensures -0x8000_0000 <= r < 0x8000_0000
    ensures -0x8000_0000 <= x < 0x8000_0000 ==> r == x
  {
    (x + 0x8000_0000) % UINT_MODULUS - 0x8000_0000
  }

  /** An increment of a counter kept modulo 2^32 or 2^64 is the increment of the true count. */
  lemma Increment(x: nat, modulus: nat)
    requires modulus == UINT_MODULUS || modulus == ULONG_MODULUS
    ensures (x % modulus + 1) % modulus == (x + 1) % modulus
  {
  }
}

/** Sums of a per-thread quantity over all threads. */
module Tally {

  function Sum<T>(s: seq<T>, f: T -> nat): nat {
    if s == [] then 0 else Sum(s[..|s| - 1], f) + f(s[|s| - 1])
  }

  lemma {:induction false} SumUpdate<T>(s: seq<T>, i: nat, x: T, f: T -> nat)
    requires i < |s|
    ensures Sum(s[i := x], f) + f(s[i]) == Sum(s, f) + f(x)
  {
    var n := |s| - 1;
    if i == n {
      assert s[i := x][..n] == s[..n];
    } else {
      SumUpdate(s[..n], i, x, f);
      assert s[i := x][..n] == s[..n][i := x];
    }
  }

  lemma {:induction false} SumAtLeast<T>(s: seq<T>, i: nat, f: T -> nat)
    requires i < |s|
    ensures f(s[i]) <= Sum(s, f)
  {
    if i < |s| - 1 {
      SumAtLeast(s[..|s| - 1], i, f);
    }
  }

  lemma {:induction false} SumAtMostLength<T>(s: seq<T>, f: T -> nat)
    requires forall i | 0 <= i < |s| :: f(s[i]) <= 1
    ensures Sum(s, f) <= |s|
  {
    if s != [] {
      SumAtMostLength(s[..|s| - 1], f);
    }
  }

  lemma {:induction false} SumZero<T>(s: seq<T>, f: T -> nat)
    requires forall i | 0 <= i < |s| :: f(s[i]) == 0
    ensures Sum(s, f) == 0
  {
    if s != [] {
      SumZero(s[..|s| - 1], f);
    }
  }
}
