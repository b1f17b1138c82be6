/** The work-efficient (Blelloch) scan one workgroup runs on its shared array `sArray`
    (sketch.js:945-990 for the grid, 993-1038 for the chunk totals). Each step between two
    `workgroupBarrier()` calls is one whole-array step here: a `forall` statement, whose
    right-hand sides are all read before any element is written, as the barrier guarantees. */
module Blelloch {
  import opened Sums

  /** 1, 2, 4, 8, ...: the chunk sizes the sweep handles. */
  predicate IsPow2(n: nat)
    decreases n
  {
    n == 1 || (n > 1 && n % 2 == 0 && IsPow2(n / 2))
  }

  /** The largest power of two `d <= b` that divides `n` (for a power of two `b`): after the
      up-sweep has run with strides below `b`, position `n - 1` holds the sum of the `d`
      inputs ending at it. */
  function Span(n: int, b: nat): nat
    decreases b
  {
    if b <= 1 || n % b == 0 then b else Span(n, b / 2)
  }

  // ---------------------------------------------------------------------------------------
  // Divisibility facts about powers of two used by both sweeps.

  /** A multiple of `2b` is a multiple of `b`, one `b` below it is an odd multiple of `b`,
      and a positive one is at least `2b`. */
  lemma DoubleMultiple(n: int, b: int)
    requires b > 0 && n % (2 * b) == 0
    ensures n % b == 0
    ensures (n - b) % b == 0 && (n - b) % (2 * b) == b
    ensures n > 0 ==> n >= 2 * b
  {
    var q := n / (2 * b);
    assert n == q * (2 * b);
    assert n == (2 * q) * b;
    ModUnique(n, b, 2 * q, 0);
    assert n - b == (2 * q - 1) * b;
    ModUnique(n - b, b, 2 * q - 1, 0);
    assert n - b == (q - 1) * (2 * b) + b;
    ModUnique(n - b, 2 * b, q - 1, b);
    if n > 0 {
      if q <= 0 {
        if q <= -1 { MulAtMost(q, 2 * b); }
        assert false;
      }
      MulAtLeast(q, 2 * b);
    }
  }

  lemma OddTimes(h: int, b: int)
    ensures (2 * h + 1) * b == h * (2 * b) + b
    ensures (2 * h) * b == h * (2 * b)
    ensures h * (2 * b) + b + b == (h + 1) * (2 * b)
  {
  }

  /** An odd multiple of `b` plus `b` is a multiple of `2b`. */
  lemma OddMultiple(n: int, b: int)
    requires b > 0 && n % b == 0 && n % (2 * b) != 0
    ensures (n + b) % (2 * b) == 0
    ensures n % (2 * b) == b
  {
    var q := n / b;
    var h := q / 2;
    OddTimes(h, b);
    if q % 2 == 0 {
      assert q == 2 * h;
      ModUnique(n, 2 * b, h, 0);
      assert false;
    }
    assert q == 2 * h + 1;
    ModUnique(n, 2 * b, h, b);
    ModUnique(n + b, 2 * b, h + 1, 0);
  }

  /** Doubling a power of two, or halving one above 1, gives a power of two. */
  lemma Pow2Double(s: nat)
    requires IsPow2(s)
    ensures IsPow2(2 * s)
  {
    assert (2 * s) / 2 == s;
  }

  lemma Pow2Half(s: nat)
    requires IsPow2(s) && s > 1
    ensures IsPow2(s / 2) && s == 2 * (s / 2)
  {
  }

  /** Two powers of two: the smaller one, doubled, still fits in and divides the larger. */
  lemma {:induction false} Pow2Below(s: nat, c: nat)
    requires IsPow2(s) && IsPow2(c) && s < c
    ensures 2 * s <= c && c % (2 * s) == 0
    decreases c
  {
    if s == 1 {
      ModUnique(c, 2, c / 2, 0);
    } else {
      Pow2Below(s / 2, c / 2);
      var k := (c / 2) / s;
      assert c / 2 == k * s;
      assert c == k * (2 * s);
      ModUnique(c, 2 * s, k, 0);
    }
  }

  // ---------------------------------------------------------------------------------------
  // The invariants of the two sweeps over a chunk whose inputs are `a`.

  /** After the up-sweep steps with strides below `b`, position `j` holds the sum of the
      `Span(j + 1, b)` inputs ending at `j`. */
  ghost predicate UpSwept(s: seq<int>, a: seq<int>, b: nat) {
    |s| == |a| && forall j :: 0 <= j < |s| ==> s[j] == SumRange(a, j + 1 - Span(j + 1, b), j + 1)
  }

  /** During the down-sweep with blocks of size `b`: the last position of each block holds the
      sum of all inputs before that block; every other position still holds its up-sweep sum. */
  ghost predicate DownSwept(s: seq<int>, a: seq<int>, b: nat) {
    && b > 0
    && |s| == |a|
    && forall j :: 0 <= j < |s| ==>
         s[j] == if (j + 1) % b == 0 then SumRange(a, 0, j + 1 - b)
                 else SumRange(a, j + 1 - Span(j + 1, b), j + 1)
  }

  /** The sum an up-sweep step stores at a position `j` with `(j + 1) % 2d == 0`. */
  lemma UpStepAt(a: seq<int>, d: nat, j: int, x: int, y: int)
    requires d > 0 && j >= 0 && (j + 1) % (2 * d) == 0
    requires x == SumRange(a, j + 1 - Span(j + 1, d), j + 1)
    requires y == SumRange(a, j + 1 - d - Span(j + 1 - d, d), j + 1 - d)
    ensures d <= j && x + y == SumRange(a, j + 1 - Span(j + 1, 2 * d), j + 1)
  {
    DoubleMultiple(j + 1, d);
    assert Span(j + 1, d) == d;
    assert Span(j + 1 - d, d) == d;
    assert Span(j + 1, 2 * d) == 2 * d;
    SplitSum(a, j + 1 - 2 * d, j + 1 - d, j + 1);
  }

  /** Away from the multiples of `2d`, the span a position reaches does not grow past `d`. */
  lemma SpanKeeps(n: int, d: nat)
    requires d > 0 && n % (2 * d) != 0
    ensures Span(n, 2 * d) == Span(n, d)
  {
    assert (2 * d) / 2 == d;
  }

  /** One up-sweep step, stride `d`: every position `j` with `(j + 1) % 2d == 0` adds the
      value `d` positions to its left (sketch.js:958-962). */
  lemma {:induction false} UpStep(a: seq<int>, s: seq<int>, s': seq<int>, d: nat)
    requires d > 0 && UpSwept(s, a, d) && |s'| == |s|
    requires forall j :: 0 <= d <= j < |s| && (j + 1) % (2 * d) == 0 ==> s'[j] == s[j] + s[j - d]
    requires forall j :: 0 <= j < |s| && (j + 1) % (2 * d) != 0 ==> s'[j] == s[j]
    ensures UpSwept(s', a, 2 * d)
  {
    forall j | 0 <= j < |s|
      ensures s'[j] == SumRange(a, j + 1 - Span(j + 1, 2 * d), j + 1)
    {
      if (j + 1) % (2 * d) == 0 {
        DoubleMultiple(j + 1, d);
        assert s'[j] == s[j] + s[j - d];
        assert s[j - d] == SumRange(a, j - d + 1 - Span(j - d + 1, d), j - d + 1);
        UpStepAt(a, d, j, s[j], s[j - d]);
      } else {
        SpanKeeps(j + 1, d);
        assert s'[j] == s[j];
      }
    }
  }

  /** Clearing the last position after a complete up-sweep starts the down-sweep with one
      block, the whole chunk (sketch.js:967-969). */
  lemma {:induction false} StartDown(a: seq<int>, s: seq<int>, s': seq<int>)
    requires |s| > 0 && UpSwept(s, a, |s|)
    requires s' == s[|s| - 1 := 0]
    ensures DownSwept(s', a, |s|)
  {
    var c := |s|;
    forall j | 0 <= j < c
      ensures s'[j] == if (j + 1) % c == 0 then SumRange(a, 0, j + 1 - c)
                       else SumRange(a, j + 1 - Span(j + 1, c), j + 1)
    {
      if j + 1 < c {
        ModUnique(j + 1, c, 0, j + 1);
      } else {
        ModUnique(j + 1, c, 1, 0);
      }
    }
  }

  /** The value a down-sweep step stores in the right cell of a lane's pair. */
  lemma DownStepRight(a: seq<int>, d: nat, j: int, x: int, y: int)
    requires d > 0 && j >= 0 && (j + 1) % (2 * d) == 0
    requires x == SumRange(a, 0, j + 1 - 2 * d)
    requires y == SumRange(a, j + 1 - d - Span(j + 1 - d, 2 * d), j + 1 - d)
    ensures d <= j && x + y == SumRange(a, 0, j + 1 - d)
  {
    DoubleMultiple(j + 1, d);
    assert Span(j + 1 - d, 2 * d) == Span(j + 1 - d, d) == d;
    SplitSum(a, 0, j + 1 - 2 * d, j + 1 - d);
  }

  /** One down-sweep step, stride `d`: each lane owns the pair (`j - d`, `j`) with
      `(j + 1) % 2d == 0`; the left cell takes the right one's value and the right one adds the
      left one's old value (sketch.js:972-983). */
  lemma {:induction false} DownStep(a: seq<int>, s: seq<int>, s': seq<int>, d: nat)
    requires d > 0 && DownSwept(s, a, 2 * d) && |s'| == |s|
    requires forall j :: 0 <= d <= j < |s| && (j + 1) % (2 * d) == 0 ==> s'[j] == s[j] + s[j - d]
    requires forall j :: 0 <= j && j + d < |s| && (j + 1) % d == 0 && (j + 1) % (2 * d) != 0 ==>
      s'[j] == s[j + d]
    requires forall j :: 0 <= j < |s| && (j + 1) % d != 0 ==> s'[j] == s[j]
    requires |s| % (2 * d) == 0
    ensures DownSwept(s', a, d)
  {
    forall j | 0 <= j < |s|
      ensures s'[j] == if (j + 1) % d == 0 then SumRange(a, 0, j + 1 - d)
                       else SumRange(a, j + 1 - Span(j + 1, d), j + 1)
    {
      if (j + 1) % (2 * d) == 0 {
        DoubleMultiple(j + 1, d);
        DownStepRight(a, d, j, s[j], s[j - d]);
      } else if (j + 1) % d == 0 {
        OddMultiple(j + 1, d);
        PairInChunk(j, d, |s|);
        assert s[j + d] == SumRange(a, 0, j + 1 - d);
      } else {
        DownStepKept(d, j);
      }
    }
  }

  /** A position outside every pair keeps its up-sweep span. */
  lemma DownStepKept(d: nat, j: int)
    requires d > 0 && (j + 1) % d != 0
    ensures Span(j + 1, 2 * d) == Span(j + 1, d)
  {
    if (j + 1) % (2 * d) == 0 {
      DoubleMultiple(j + 1, d);
    }
  }

  /** The right cell of a lane's pair lies inside the chunk. */
  lemma PairInChunk(j: int, d: nat, c: nat)
    requires d > 0 && 0 <= j < c && c % (2 * d) == 0 && (j + 1 + d) % (2 * d) == 0
    ensures j + d < c
  {
    var k := (j + 1 + d) / (2 * d);
    var m := c / (2 * d);
    assert j + 1 + d == k * (2 * d);
    assert c == m * (2 * d);
    if j + d >= c {
      assert (k - m) * (2 * d) > 0;
      assert (k - m) * (2 * d) <= d;
      if k - m >= 1 {
        MulAtLeast(k - m, 2 * d);
      } else {
        MulAtMost(k - m, 2 * d);
      }
      assert false;
    }
  }

  /** With blocks of size 1 every position holds the sum of the inputs before it. */
  lemma SweepDone(a: seq<int>, s: seq<int>)
    requires DownSwept(s, a, 1)
    ensures s == ExclusivePrefix(a)
  {
    forall j | 0 <= j < |s|
      ensures s[j] == SumRange(a, 0, j)
    {
      ModUnique(j + 1, 1, j + 1, 0);
    }
  }

  // ---------------------------------------------------------------------------------------
  // The workgroup's code.

  /** The up-sweep and down-sweep of one workgroup over its shared array (sketch.js:954-984):
      a power-of-two chunk ends up holding its exclusive prefix sums. Both loops run
      `log2(s.Length)` times (`FSCAN_STEPS`, `SSCAN_STEPS`). */
  method Sweep(s: array<int>)
    requires IsPow2(s.Length)
    modifies s
    ensures s[..] == ExclusivePrefix(old(s[..]))
  {
    ghost var a := s[..];
    UpSweep(s);
    DownSweep(s, a);
  }

  /** The up-sweep (sketch.js:956-964): strides 1, 2, 4, ... below the chunk size. */
  method UpSweep(s: array<int>)
    requires IsPow2(s.Length)
    modifies s
    ensures UpSwept(s[..], old(s[..]), s.Length)
  {
    ghost var a := s[..];
    var c := s.Length;
    var stride := 1;
    while stride < c
      invariant IsPow2(stride) && stride <= c
      invariant UpSwept(s[..], a, stride)
    {
      Pow2Below(stride, c);
      ghost var prev := s[..];
      UpSweepStep(s, stride);
      UpStep(a, prev, s[..], stride);
      Pow2Double(stride);
      stride := 2 * stride;
    }
  }

  /** The down-sweep (sketch.js:966-984): lane 0 clears the last element, then the strides
      halve from half the chunk size down to 1. */
  method DownSweep(s: array<int>, ghost a: seq<int>)
    requires IsPow2(s.Length) && UpSwept(s[..], a, s.Length)
    modifies s
    ensures s[..] == ExclusivePrefix(a)
  {
    var c := s.Length;
    ghost var prev := s[..];
    s[c - 1] := 0;
    StartDown(a, prev, s[..]);
    if c > 1 {
      Pow2Half(c);
    }
    var stride := c / 2;
    ghost var block: nat := c;
    while stride > 0
      invariant block == if stride == 0 then 1 else 2 * stride
      invariant stride > 0 ==> IsPow2(stride) && c % (2 * stride) == 0
      invariant DownSwept(s[..], a, block)
    {
      prev := s[..];
      DownSweepStep(s, stride);
      DownStep(a, prev, s[..], stride);
      if stride > 1 {
        DoubleMultiple(c, stride);
        Pow2Half(stride);
      }
      stride := stride / 2;
      block := block / 2;
    }
    SweepDone(a, s[..]);
  }

  /** One up-sweep step between two barriers (sketch.js:958-963). Lane `lid` works on
      ch0 = (lid + 1) * 2 * stride - 1 when that is below the chunk size: exactly the positions
      `j` with `(j + 1) % (2 * stride) == 0`, all of which are at least `stride`. */
  method UpSweepStep(s: array<int>, stride: nat)
    requires stride > 0
    modifies s
    ensures forall j :: 0 <= stride <= j < s.Length && (j + 1) % (2 * stride) == 0 ==>
      s[..][j] == old(s[..])[j] + old(s[..])[j - stride]
    ensures forall j :: 0 <= j < s.Length && (j + 1) % (2 * stride) != 0 ==> s[..][j] == old(s[..])[j]
  {
    forall j | stride <= j < s.Length && (j + 1) % (2 * stride) == 0 {
      s[j] := s[j] + s[j - stride];
    }
  }

  /** One down-sweep step between two barriers (sketch.js:974-983). Lane `lid` owns the pair
      ch1 = ch0 - stride, ch0 = (lid + 1) * 2 * stride - 1; every lane reads its pair before
      any lane writes, ch1 takes ch0's value and ch0 adds ch1's old value. */
  method DownSweepStep(s: array<int>, stride: nat)
    requires stride > 0 && s.Length % (2 * stride) == 0
    modifies s
    ensures forall j :: 0 <= stride <= j < s.Length && (j + 1) % (2 * stride) == 0 ==>
      s[..][j] == old(s[..])[j] + old(s[..])[j - stride]
    ensures forall j :: 0 <= j && j + stride < s.Length && (j + 1) % stride == 0 && (j + 1) % (2 * stride) != 0 ==>
      s[..][j] == old(s[..])[j + stride]
    ensures forall j :: 0 <= j < s.Length && (j + 1) % stride != 0 ==> s[..][j] == old(s[..])[j]
  {
    var t := s[..];
    // the left cell of every pair takes the right cell's value
    forall j | 0 <= j && j + stride < s.Length && (j + 1 + stride) % (2 * stride) == 0 {
      s[j] := t[j + stride];
    }
    ghost var mid := s[..];
    // the right cell adds the left cell's old value
    forall j | stride <= j < s.Length && (j + 1) % (2 * stride) == 0 {
      s[j] := t[j] + t[j - stride];
    }
    forall j | 0 <= j < s.Length
      ensures (stride <= j && (j + 1) % (2 * stride) == 0) ==> s[j] == t[j] + t[j - stride]
      ensures (j + stride < s.Length && (j + 1) % stride == 0 && (j + 1) % (2 * stride) != 0) ==> s[j] == t[j + stride]
      ensures (j + 1) % stride != 0 ==> s[j] == t[j]
    {
      if (j + 1) % (2 * stride) == 0 {
        DoubleMultiple(j + 1, stride);
      } else if (j + 1) % stride == 0 {
        OddMultiple(j + 1, stride);
        assert mid[j] == s[j];
      } else {
        if (j + 1 + stride) % (2 * stride) == 0 {
          DoubleMultiple(j + 1 + stride, stride);
          assert false;
        }
        assert mid[j] == s[j];
      }
    }
  }
}
