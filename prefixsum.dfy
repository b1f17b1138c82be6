/** One workgroup of `firstScan` / `secondScan` (sketch.js:945-1038) and the arithmetic that
    stitches the per-chunk scans of the hierarchy together (sketch.js:1041-1066). */
module PrefixSum {
  import opened Sums
  import opened Config
  import opened Blelloch

  lemma ScanChunkIsPow2()
    ensures IsPow2(MAX_SCAN_SIZE)
  {
    assert IsPow2(1);
    assert IsPow2(2);
    assert IsPow2(4);
    assert IsPow2(8);
    assert IsPow2(16);
    assert IsPow2(32);
    assert IsPow2(64);
    assert IsPow2(128);
  }

  /** One workgroup scanning a power-of-two chunk: every lane loads its value into `sArray` and
      keeps it as `initVal`, the up-sweep and down-sweep leave the exclusive prefix, each lane
      adds `initVal` back, and the last lane's value is the chunk total. */
  method WorkgroupScan(vals: seq<int>) returns (incl: seq<int>, total: int)
    requires IsPow2(|vals|)
    ensures incl == InclusivePrefix(vals)
    ensures total == SumRange(vals, 0, |vals|)
  {
    var sArray := new int[|vals|](l requires 0 <= l < |vals| => vals[l]);
    assert sArray[..] == vals;
    Sweep(sArray);
    incl := seq(|vals|, l requires 0 <= l < |vals| reads sArray => sArray[l] + vals[l]);
    forall l | 0 <= l < |vals|
      ensures incl[l] == InclusivePrefix(vals)[l]
    {
      assert sArray[l] == SumRange(vals, 0, l);
    }
    total := incl[|vals| - 1];
  }

  /** Every position of scan chunk `w` has `w`'s start as its chunk start. */
  lemma ChunkStarts(w: nat)
    ensures forall c :: w * MAX_SCAN_SIZE <= c < w * MAX_SCAN_SIZE + MAX_SCAN_SIZE ==>
      (c / MAX_SCAN_SIZE) * MAX_SCAN_SIZE == w * MAX_SCAN_SIZE
  {
    forall c | w * MAX_SCAN_SIZE <= c < w * MAX_SCAN_SIZE + MAX_SCAN_SIZE
      ensures (c / MAX_SCAN_SIZE) * MAX_SCAN_SIZE == w * MAX_SCAN_SIZE
    {
      ModUnique(c, MAX_SCAN_SIZE, w, c - w * MAX_SCAN_SIZE);
    }
  }

  /** Scanning a window copied out of `a` gives the sums of `a` from the window's start. */
  lemma WindowScan(a: seq<int>, lo: int, n: nat)
    ensures forall l :: 0 <= l < n ==> InclusivePrefix(Window(a, lo, n))[l] == SumRange(a, lo, lo + l + 1)
    ensures SumRange(Window(a, lo, n), 0, n) == SumRange(a, lo, lo + n)
  {
    forall l | 0 <= l < n
      ensures InclusivePrefix(Window(a, lo, n))[l] == SumRange(a, lo, lo + l + 1)
    {
      SumOfWindow(a, lo, n, l + 1);
    }
    SumOfWindow(a, lo, n, n);
  }

  /** The totals of consecutive chunks of `a` add up to the sum of the chunks together. */
  lemma {:induction false} ChunkTotals(a: seq<int>, t: seq<int>, chunk: nat, k: nat)
    requires k <= |t|
    requires forall w :: 0 <= w < k ==> t[w] == SumRange(a, w * chunk, w * chunk + chunk)
    ensures SumRange(t, 0, k) == SumRange(a, 0, k * chunk)
  {
    if k > 0 {
      ChunkTotals(a, t, chunk, k - 1);
      SplitSum(a, 0, (k - 1) * chunk, k * chunk);
    }
  }

  /** A position's in-chunk inclusive prefix plus the totals of all earlier chunks is its
      inclusive prefix over the whole sequence: the step each carry pass completes. */
  lemma CarryCombine(a: seq<int>, t: seq<int>, chunk: nat, c: nat)
    requires chunk > 0 && c / chunk <= |t|
    requires forall w :: 0 <= w < c / chunk ==> t[w] == SumRange(a, w * chunk, w * chunk + chunk)
    ensures SumRange(a, (c / chunk) * chunk, c + 1) + SumRange(t, 0, c / chunk) == SumRange(a, 0, c + 1)
  {
    var k := c / chunk;
    assert k * chunk <= c by {
      assert c == k * chunk + c % chunk;
    }
    ChunkTotals(a, t, chunk, k);
    SplitSum(a, 0, k * chunk, c + 1);
  }

  /** The carry `addAarray1toOrigin` adds to cell `c`: the inclusive prefix of the chunk totals
      up to the previous chunk, and nothing for chunk 0. */
  function CarryIn(a1: seq<int>, c: nat, chunk: nat): (r: int)
    requires chunk > 0
    ensures c / chunk == 0 ==> r == 0
    ensures 0 < c / chunk <= |a1| ==> r == a1[c / chunk - 1]
  {
    if c / chunk == 0 then 0 else At(a1, c / chunk - 1)
  }

  /** With the carried totals an inclusive prefix of the chunk totals, `CarryIn` is the sum of
      all chunks before `c`'s own. */
  lemma CarryInIsEarlierChunks(t: seq<int>, a1: seq<int>, c: nat, chunk: nat)
    requires chunk > 0 && c / chunk <= |a1|
    requires forall k :: 0 <= k < |a1| ==> a1[k] == SumRange(t, 0, k + 1)
    ensures CarryIn(a1, c, chunk) == SumRange(t, 0, c / chunk)
  {
  }

  /** The two levels together: a position's in-chunk prefix plus its carry, read from the
      inclusive prefix of the chunk totals, is its prefix over the whole sequence. */
  lemma TwoLevelCarry(a: seq<int>, t: seq<int>, a1: seq<int>, chunk: nat, c: nat)
    requires chunk > 0 && c / chunk < |t| && |a1| == |t|
    requires forall w :: 0 <= w < |t| ==> t[w] == SumRange(a, w * chunk, w * chunk + chunk)
    requires forall k :: 0 <= k < |a1| ==> a1[k] == SumRange(t, 0, k + 1)
    ensures SumRange(a, (c / chunk) * chunk, c + 1) + CarryIn(a1, c, chunk) == SumRange(a, 0, c + 1)
  {
    CarryInIsEarlierChunks(t, a1, c, chunk);
    CarryCombine(a, t, chunk, c);
  }

  // ---------------------------------------------------------------------------------------
  // The two places where the shader as written departs from the scan it implements.

  /** What lane 0 stores as the chunk total when it reads the last lane's slot before that lane
      has added its `initVal` back: nothing orders the two (sketch.js:985-988). */
  function RacedChunkTotal(vals: seq<int>): (r: int)
    requires |vals| > 0
    ensures r + vals[|vals| - 1] == SumRange(vals, 0, |vals|)
  {
    ExclusivePrefix(vals)[|vals| - 1]
  }

  /** The early read loses exactly the last count: the stored total is right only when the last
      cell of the chunk is empty. */
  lemma RacedTotalWrongIffLastNonEmpty(vals: seq<int>)
    requires |vals| > 0
    ensures RacedChunkTotal(vals) == SumRange(vals, 0, |vals|) <==> vals[|vals| - 1] == 0
  {
  }

  /** A concrete chunk on which the early read is wrong: counts `[0, 1]`. */
  lemma RacedTotalCounterexample()
    ensures IsPow2(2)
    ensures RacedChunkTotal([0, 1]) == 0 != SumRange([0, 1], 0, 2)
  {
    assert IsPow2(1);
  }

  /** The `aArray1` index `addAarray1toOrigin` reads for cell `c`: `c / chunk - 1` in `u32`. */
  function CarryIndexAsWritten(c: nat, chunk: nat): (r: nat)
    requires chunk > 0 && c < U32_RANGE
    ensures r < U32_RANGE
    ensures c / chunk > 0 ==> r == c / chunk - 1
  {
    DivAtMost(c, chunk);
    if c / chunk > 0 then
      ModUnique(c / chunk - 1, U32_RANGE, 0, c / chunk - 1);
      U32(c / chunk - 1)
    else U32(c / chunk - 1)
  }

  /** For every cell of chunk 0 the index wraps to `0xffffffff`, past the end of `aArray1`
      (whose length is `FSCAN_CHUNK_NUM`, at most 12800), so the carry read is out of bounds. */
  lemma CarryIndexUnderflows(c: nat, layers: nat)
    requires 1 <= layers <= MAX_LAYERS && c < MAX_SCAN_SIZE
    ensures CarryIndexAsWritten(c, MAX_SCAN_SIZE) == U32_MAX
    ensures CarryIndexAsWritten(c, MAX_SCAN_SIZE) >= FScanChunkNum(layers)
  {
    SourceSizes(layers);
    ModUnique(-1, U32_RANGE, -1, U32_RANGE - 1);
  }
}
