/** Integer sums over sequences, the reference definitions every scan result is compared with.
    Positions outside a sequence read as 0, the way a scan lane beyond the end of its input
    loads 0 (`select(0u, ..., cellInd < GRID_SIZE)`). */
module Sums {

  /** Element `i` of `a`, or 0 when `i` lies outside `a`. */
  function At(a: seq<int>, i: int): int {
    if 0 <= i < |a| then a[i] else 0
  }

  /** `a[lo] + ... + a[hi - 1]`, reading outside positions as 0; empty when `hi <= lo`. */
  function SumRange(a: seq<int>, lo: int, hi: int): int
    decreases hi - lo
  {
    if hi <= lo then 0 else SumRange(a, lo, hi - 1) + At(a, hi - 1)
  }

  /** The inclusive prefix sum of `a`: element `j` is `a[0] + ... + a[j]`. */
  function InclusivePrefix(a: seq<int>): (r: seq<int>)
    ensures |r| == |a|
  {
    seq(|a|, j requires 0 <= j < |a| => SumRange(a, 0, j + 1))
  }

  /** The exclusive prefix sum of `a`: element `j` is `a[0] + ... + a[j - 1]`. */
  function ExclusivePrefix(a: seq<int>): (r: seq<int>)
    ensures |r| == |a|
  {
    seq(|a|, j requires 0 <= j < |a| => SumRange(a, 0, j))
  }

  function Min(a: int, b: int): int {
    if a <= b then a else b
  }

  /** `ceil(a / b)`, the number of chunks of size `b` that cover `a` elements. */
  function CeilDiv(a: nat, b: nat): nat
    requires b > 0
  {
    (a + b - 1) / b
  }

  /** Enough chunks to cover everything, and one fewer would not be. */
  lemma CeilDivBounds(a: nat, b: nat)
    requires b > 0
    ensures CeilDiv(a, b) * b >= a
    ensures CeilDiv(a, b) > 0 ==> (CeilDiv(a, b) - 1) * b < a
  {
    var k, r := (a + b - 1) / b, (a + b - 1) % b;
    assert a + b - 1 == k * b + r;
    assert (k - 1) * b == k * b - b;
  }

  predicate NonNegative(a: seq<int>) {
    forall i :: 0 <= i < |a| ==> a[i] >= 0
  }

  lemma {:induction false} SplitSum(a: seq<int>, lo: int, mid: int, hi: int)
    requires lo <= mid <= hi
    ensures SumRange(a, lo, mid) + SumRange(a, mid, hi) == SumRange(a, lo, hi)
    decreases hi - mid
  {
    if mid < hi {
      SplitSum(a, lo, mid, hi - 1);
    }
  }

  /** A sum of non-negative entries is non-negative and grows with its upper bound. */
  lemma {:induction false} SumMonotone(a: seq<int>, lo: int, hi: int, hi': int)
    requires NonNegative(a) && hi <= hi'
    ensures 0 <= SumRange(a, lo, hi) <= SumRange(a, lo, hi')
    decreases hi' - lo
  {
    if hi' <= lo {
    } else if hi == hi' {
      SumMonotone(a, lo, hi - 1, hi - 1);
    } else {
      SumMonotone(a, lo, hi, hi' - 1);
    }
  }

  /** The `n` positions of `a` from `off` on, as a scan lane loads them. */
  function Window(a: seq<int>, off: int, n: nat): (r: seq<int>)
    ensures |r| == n && forall l :: 0 <= l < n ==> r[l] == At(a, off + l)
  {
    seq(n, l requires 0 <= l < n => At(a, off + l))
  }

  /** Summing the window `[off, off + n)` of `a` is summing the sequence that window was copied into. */
  lemma {:induction false} SumOfWindow(a: seq<int>, off: int, n: nat, hi: nat)
    requires hi <= n
    ensures SumRange(Window(a, off, n), 0, hi) == SumRange(a, off, off + hi)
  {
    if hi > 0 {
      SumOfWindow(a, off, n, hi - 1);
    }
  }

  /** Sums that only read inside `b` agree on any sequences that agree there. */
  lemma {:induction false} SumAgrees(a: seq<int>, b: seq<int>, lo: int, hi: int)
    requires forall i :: lo <= i < hi ==> At(a, i) == At(b, i)
    ensures SumRange(a, lo, hi) == SumRange(b, lo, hi)
    decreases hi - lo
  {
    if lo < hi {
      SumAgrees(a, b, lo, hi - 1);
    }
  }

  /** Past the end of `a` nothing more is added. */
  lemma {:induction false} SumPastEnd(a: seq<int>, lo: int, hi: int)
    requires 0 <= lo && |a| <= hi
    ensures SumRange(a, lo, hi) == SumRange(a, lo, if lo <= |a| then |a| else lo)
    decreases hi - lo
  {
    if hi > |a| && hi > lo {
      SumPastEnd(a, lo, hi - 1);
    }
  }

  // ---------------------------------------------------------------------------------------
  // Integer division facts.

  lemma MulAtLeast(x: int, b: int)
    requires x >= 1 && b > 0
    ensures x * b >= b
  {
  }

  lemma MulAtMost(x: int, b: int)
    requires x <= -1 && b > 0
    ensures x * b <= -b
  {
  }

  /** Division with remainder is unique. */
  lemma ModUnique(n: int, b: int, q: int, r: int)
    requires b > 0 && 0 <= r < b && n == q * b + r
    ensures n % b == r && n / b == q
  {
    var q', r' := n / b, n % b;
    assert n == q' * b + r';
    assert (q - q') * b == r' - r;
    if q - q' >= 1 {
      MulAtLeast(q - q', b);
    } else if q - q' <= -1 {
      MulAtMost(q - q', b);
    }
  }

  /** A quotient never exceeds its dividend. */
  lemma DivAtMost(n: nat, b: nat)
    requires b > 0
    ensures n / b <= n
  {
    MulGrows(n / b, b);
  }

  lemma {:induction false} MulGrows(q: nat, b: nat)
    requires b >= 1
    ensures q * b >= q
  {
    if b > 1 {
      MulGrows(q, b - 1);
      assert q * b == q * (b - 1) + q;
    }
  }
}
