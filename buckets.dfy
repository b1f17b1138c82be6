/** Reference definitions for the counting sort over spatial hashes: per-cell populations,
    the particles of one cell, and the order in which a pass visits particles. A hash is a cell
    index when it lies in `[0, g)` for a grid of `g` cells; the dead-particle sentinel never does. */
module Buckets {
  import opened Sums

  /** How many entries of `hs` equal `c`. */
  function Count(hs: seq<int>, c: int): nat {
    if hs == [] then 0
    else Count(hs[..|hs| - 1], c) + (if hs[|hs| - 1] == c then 1 else 0)
  }

  /** How many entries of `hs` lie in `[0, k)`; for `k` the number of cells, the live particles. */
  function CountBelow(hs: seq<int>, k: int): nat {
    if hs == [] then 0
    else CountBelow(hs[..|hs| - 1], k) + (if 0 <= hs[|hs| - 1] < k then 1 else 0)
  }

  /** The population of every cell of a grid of `g` cells. */
  function CountsOf(hs: seq<int>, g: nat): (r: seq<int>)
    ensures |r| == g && NonNegative(r)
  {
    seq(g, c requires 0 <= c < g => Count(hs, c))
  }

  /** Particle `i` exists and hashes to cell `c`. */
  predicate HashIs(hs: seq<int>, i: int, c: int) {
    0 <= i < |hs| && hs[i] == c
  }

  /** The indices of the particles hashing to `c`, in increasing order. */
  function Bucket(hs: seq<int>, c: int): seq<int> {
    if hs == [] then []
    else Bucket(hs[..|hs| - 1], c) + (if hs[|hs| - 1] == c then [|hs| - 1] else [])
  }

  /** The entries of `order` that are particles hashing to `c`, in the order `order` lists them. */
  function Filter(order: seq<int>, hs: seq<int>, c: int): seq<int> {
    if order == [] then []
    else Filter(order[..|order| - 1], hs, c) + (if HashIs(hs, order[|order| - 1], c) then [order[|order| - 1]] else [])
  }

  /** `0, 1, ..., n - 1`: the particle indices in dispatch order. */
  function Range(n: nat): (r: seq<int>)
    ensures |r| == n
  {
    seq(n, i requires 0 <= i < n => i)
  }

  function Reverse(s: seq<int>): (r: seq<int>)
    ensures |r| == |s|
  {
    if s == [] then [] else [s[|s| - 1]] + Reverse(s[..|s| - 1])
  }

  // ---------------------------------------------------------------------------------------

  /** Adding one more particle to the dispatch adds its cell's population to the count below. */
  lemma {:induction false} CountBelowStep(hs: seq<int>, k: int)
    ensures CountBelow(hs, k + 1) == CountBelow(hs, k) + (if 0 <= k then Count(hs, k) else 0)
  {
    if hs != [] {
      CountBelowStep(hs[..|hs| - 1], k);
    }
  }

  /** Count conservation: the populations of the first `k` cells add up to the number of
      particles whose hash lies below `k`; for `k` the grid size, to the number of live ones. */
  lemma {:induction false} CountConservation(hs: seq<int>, g: nat, k: nat)
    requires k <= g
    ensures SumRange(CountsOf(hs, g), 0, k) == CountBelow(hs, k)
  {
    if k > 0 {
      CountConservation(hs, g, k - 1);
      CountBelowStep(hs, k - 1);
    } else {
      CountBelowZero(hs);
    }
  }

  lemma {:induction false} CountBelowZero(hs: seq<int>)
    ensures CountBelow(hs, 0) == 0
  {
    if hs != [] {
      CountBelowZero(hs[..|hs| - 1]);
    }
  }

  /** There are never more live particles than particles. */
  lemma {:induction false} CountBelowAtMost(hs: seq<int>, k: int)
    ensures CountBelow(hs, k) <= |hs|
  {
    if hs != [] {
      CountBelowAtMost(hs[..|hs| - 1], k);
    }
  }

  /** A cell's bucket lists each particle hashing to it exactly once, and nothing else. */
  lemma {:induction false} BucketMembers(hs: seq<int>, c: int)
    ensures |Bucket(hs, c)| == Count(hs, c)
    ensures forall x :: multiset(Bucket(hs, c))[x] == if HashIs(hs, x, c) then 1 else 0
  {
    if hs != [] {
      var init := hs[..|hs| - 1];
      BucketMembers(init, c);
      forall x ensures multiset(Bucket(hs, c))[x] == if HashIs(hs, x, c) then 1 else 0 {
        assert HashIs(hs, x, c) == (HashIs(init, x, c) || (x == |hs| - 1 && hs[|hs| - 1] == c));
        if x == |hs| - 1 {
          assert multiset(Bucket(init, c))[x] == 0;
        }
      }
    }
  }

  /** Filtering keeps the multiplicity of every particle that hashes to `c` and drops the rest. */
  lemma {:induction false} FilterMultiset(order: seq<int>, hs: seq<int>, c: int)
    ensures forall x :: multiset(Filter(order, hs, c))[x] == if HashIs(hs, x, c) then multiset(order)[x] else 0
  {
    if order != [] {
      var init := order[..|order| - 1];
      FilterMultiset(init, hs, c);
      assert order == init + [order[|order| - 1]];
    }
  }

  lemma {:induction false} FilterConcat(a: seq<int>, b: seq<int>, hs: seq<int>, c: int)
    ensures Filter(a + b, hs, c) == Filter(a, hs, c) + Filter(b, hs, c)
    decreases |b|
  {
    if b != [] {
      var b' := b[..|b| - 1];
      assert (a + b)[..|a + b| - 1] == a + b';
      FilterConcat(a, b', hs, c);
    } else {
      assert a + b == a;
    }
  }

  lemma RangeMultiset(n: nat)
    ensures forall x :: multiset(Range(n))[x] == if 0 <= x < n then 1 else 0
  {
    forall x ensures multiset(Range(n))[x] == if 0 <= x < n then 1 else 0 {
      RangeCount(n, x);
    }
  }

  lemma {:induction false} RangeCount(n: nat, x: int)
    ensures multiset(Range(n))[x] == if 0 <= x < n then 1 else 0
  {
    if n > 0 {
      RangeCount(n - 1, x);
      assert Range(n) == Range(n - 1) + [n - 1];
    }
  }

  /** Visiting the particles in any order, the ones hashing to `c` are that cell's bucket. */
  lemma FilterOfPermutation(order: seq<int>, hs: seq<int>, c: int)
    requires multiset(order) == multiset(Range(|hs|))
    ensures multiset(Filter(order, hs, c)) == multiset(Bucket(hs, c))
    ensures |Filter(order, hs, c)| == Count(hs, c)
  {
    FilterMultiset(order, hs, c);
    BucketMembers(hs, c);
    RangeMultiset(|hs|);
    forall x ensures multiset(Filter(order, hs, c))[x] == multiset(Bucket(hs, c))[x] {
      if HashIs(hs, x, c) {
        assert multiset(order)[x] == multiset(Range(|hs|))[x];
      }
    }
    assert multiset(Filter(order, hs, c)) == multiset(Bucket(hs, c));
    assert |multiset(Filter(order, hs, c))| == |multiset(Bucket(hs, c))|;
  }

  lemma {:induction false} ReverseMultiset(s: seq<int>)
    ensures multiset(Reverse(s)) == multiset(s)
  {
    if s != [] {
      ReverseMultiset(s[..|s| - 1]);
      assert s == s[..|s| - 1] + [s[|s| - 1]];
    }
  }
}
