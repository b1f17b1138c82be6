/** The spatial bucketing passes of one frame over the `Simulation` storage buffer
    (sketch.js:838-850): hash every particle, count each cell's population, turn the counts
    into bucket ends with a three-level prefix sum, and let every live particle claim a slot of
    its cell's bucket. Each pass is a full barrier (one `dispatchWorkgroups` after another in a
    single compute pass, sketch.js:1689-1693), so each is a method run to completion before
    the next one starts. Invocations of a pass that do not interact are a `forall` statement;
    atomic updates, which do, are a loop over the invocations in an order given as a parameter
    or, where the updates commute, in index order. */
module Pipeline {
  import opened Sums
  import opened Config
  import opened Blelloch
  import opened Buckets
  import opened Hashing
  import opened PrefixSum

  /** A `Cell` of `sim.grid` without its velocity, which these passes do not touch. */
  datatype Cell = Cell(atomicCount: int, count: int, sums: int, atomicSums: int)

  /** The fields of a `Particle` that the bucketing passes read or write. `cellX`/`cellY` is
      the cell of the predicted position, `vec2u(pPos * inv_h)`, and `layer` is `cellPos.z`. */
  datatype Particle = Particle(mass: real, cellX: nat, cellY: nat, layer: int, hash: nat, sortIndex: int)

  /** The hash of every particle. */
  function Hashes(ps: seq<Particle>): (hs: seq<int>)
    ensures |hs| == |ps|
    ensures forall i :: 0 <= i < |ps| ==> hs[i] == ps[i].hash
  {
    seq(|ps|, i requires 0 <= i < |ps| => ps[i].hash)
  }

  function SumsOf(cells: seq<Cell>): (r: seq<int>)
    ensures |r| == |cells|
    ensures forall c :: 0 <= c < |cells| ==> r[c] == cells[c].sums
  {
    seq(|cells|, c requires 0 <= c < |cells| => cells[c].sums)
  }

  /** The `sortIndex` entries of slots `[lo, hi)`; slots outside the particle array read -1. */
  function Slots(ps: seq<Particle>, lo: int, hi: int): (r: seq<int>)
    ensures |r| == if lo <= hi then hi - lo else 0
    ensures forall k :: 0 <= k < |r| && 0 <= lo + k < |ps| ==> r[k] == ps[lo + k].sortIndex
  {
    if hi <= lo then [] else seq(hi - lo, k requires 0 <= k < hi - lo => if 0 <= lo + k < |ps| then ps[lo + k].sortIndex else -1)
  }

  /** How many particles are alive (`mass != 0`). */
  function LiveCount(ps: seq<Particle>): nat {
    if ps == [] then 0 else LiveCount(ps[..|ps| - 1]) + (if ps[|ps| - 1].mass != 0.0 then 1 else 0)
  }

  /** The hash `culcHash` promises: the sentinel for the dead, a cell for the living. */
  ghost predicate Hashed(ps: seq<Particle>, gridSize: nat) {
    forall i :: 0 <= i < |ps| ==>
      (ps[i].hash == HASH_NONE <==> ps[i].mass == 0.0) && (ps[i].hash < gridSize <==> ps[i].mass != 0.0)
  }

  /** Once hashed, the particles that fall in some cell are exactly the live ones. */
  lemma {:induction false} HashedLive(ps: seq<Particle>, gridSize: nat)
    requires Hashed(ps, gridSize)
    ensures CountBelow(Hashes(ps), gridSize) == LiveCount(ps)
  {
    if ps != [] {
      var init := ps[..|ps| - 1];
      assert Hashes(ps)[..|ps| - 1] == Hashes(init);
      HashedLive(init, gridSize);
    }
  }

  /** Cell `c`'s bucket is the slot range `[start, end)` with `start` the population of all
      earlier cells and `end - start` its own population, inside the particle array. */
  lemma BucketBounds(hs: seq<int>, g: nat, c: nat)
    requires c < g
    ensures 0 <= SumRange(CountsOf(hs, g), 0, c)
    ensures SumRange(CountsOf(hs, g), 0, c) + Count(hs, c) == SumRange(CountsOf(hs, g), 0, c + 1) <= |hs|
  {
    SumMonotone(CountsOf(hs, g), 0, c, c + 1);
    SumMonotone(CountsOf(hs, g), 0, c + 1, g);
    CountConservation(hs, g, g);
    CountBelowAtMost(hs, g);
  }

  /** The buckets of two different cells do not overlap. */
  lemma BucketsDisjoint(hs: seq<int>, g: nat, c: nat, d: nat)
    requires c < g && d < g && c != d
    ensures SumRange(CountsOf(hs, g), 0, c + 1) <= SumRange(CountsOf(hs, g), 0, d)
         || SumRange(CountsOf(hs, g), 0, d + 1) <= SumRange(CountsOf(hs, g), 0, c)
  {
    if c < d {
      SumMonotone(CountsOf(hs, g), 0, c + 1, d);
    } else {
      SumMonotone(CountsOf(hs, g), 0, d + 1, c);
    }
  }

  /** However far a decrement order has got, it has not visited more of a cell's particles
      than the cell holds. */
  lemma FilterPrefixBound(order: seq<int>, hs: seq<int>, c: int, t: nat)
    requires multiset(order) == multiset(Range(|hs|)) && t <= |order|
    ensures |Filter(order[..t], hs, c)| <= Count(hs, c)
  {
    assert order == order[..t] + order[t..];
    FilterConcat(order[..t], order[t..], hs, c);
    FilterOfPermutation(order, hs, c);
  }

  /** The next entry of a decrement order is a particle index, and visiting it keeps the
      visited part of its cell within the cell's population. */
  lemma OrderStep(order: seq<int>, hs: seq<int>, t: nat)
    requires multiset(order) == multiset(Range(|hs|)) && t < |order|
    ensures 0 <= order[t] < |hs|
    ensures order[..t + 1] == order[..t] + [order[t]]
    ensures |Filter(order[..t] + [order[t]], hs, hs[order[t]])| <= Count(hs, hs[order[t]])
  {
    RangeMultiset(|hs|);
    assert order[t] in multiset(order);
    assert order[..t + 1] == order[..t] + [order[t]];
    FilterPrefixBound(order, hs, hs[order[t]], t + 1);
  }

  /** Visiting one more particle extends the filtered order by that particle exactly when it
      hashes to the cell. */
  lemma FilterSnoc(prefix: seq<int>, i: int, hs: seq<int>, c: int)
    ensures Filter(prefix + [i], hs, c) == Filter(prefix, hs, c) + (if HashIs(hs, i, c) then [i] else [])
  {
    assert (prefix + [i])[..|prefix|] == prefix;
  }

  lemma ReverseSnoc(s: seq<int>, x: int)
    ensures Reverse(s + [x]) == [x] + Reverse(s)
  {
    assert (s + [x])[..|s|] == s;
  }

  /** The counts and bucket ends of every cell, as the scan leaves them. */
  ghost predicate BucketEnds(cells: seq<Cell>, hs: seq<int>) {
    forall c {:trigger cells[c]} :: 0 <= c < |cells| ==>
      cells[c].count == Count(hs, c) && cells[c].sums == SumRange(CountsOf(hs, |cells|), 0, c + 1)
  }

  /** Once every particle has been visited, the cell's cursor is at its bucket's start and the
      bucket holds exactly the cell's particles. */
  lemma FilledBucket(cell: Cell, ps: seq<Particle>, order: seq<int>, hs: seq<int>, c: int)
    requires multiset(order) == multiset(Range(|hs|))
    requires cell.count == Count(hs, c) && CellFilled(cell, Filter(order, hs, c), Count(hs, c), ps)
    ensures cell.atomicSums == cell.sums - cell.count
    ensures forall x :: multiset(Slots(ps, cell.atomicSums, cell.sums))[x] == if HashIs(hs, x, c) then 1 else 0
  {
    var f := Filter(order, hs, c);
    FilterOfPermutation(order, hs, c);
    ReverseMultiset(f);
    BucketMembers(hs, c);
  }


  /** Once the whole order has been visited, every cursor is at its bucket's start and every
      bucket holds exactly its cell's particles. */
  lemma FilledBuckets(cells: seq<Cell>, ps: seq<Particle>, order: seq<int>, hs: seq<int>)
    requires multiset(order) == multiset(Range(|hs|))
    requires AllFilled(cells, ps, order, hs) && BucketEnds(cells, hs)
    ensures forall c :: 0 <= c < |cells| ==> cells[c].atomicSums == cells[c].sums - cells[c].count
    ensures forall c, x :: 0 <= c < |cells| ==>
      multiset(Slots(ps, cells[c].sums - cells[c].count, cells[c].sums))[x] == if HashIs(hs, x, c) then 1 else 0
  {
    forall c | 0 <= c < |cells|
      ensures cells[c].atomicSums == cells[c].sums - cells[c].count
      ensures forall x :: multiset(Slots(ps, cells[c].sums - cells[c].count, cells[c].sums))[x] == if HashIs(hs, x, c) then 1 else 0
    {
      FilledBucket(cells[c], ps, order, hs, c);
    }
  }

  /** Before any particle has been visited, with every cursor at its bucket's end, every cell
      is filled by nothing. */
  lemma FillStart(cells: seq<Cell>, ps: seq<Particle>, hs: seq<int>)
    requires BucketEnds(cells, hs) && |hs| == |ps|
    requires forall c :: 0 <= c < |cells| ==> cells[c].atomicSums == cells[c].sums
    ensures AllFilled(cells, ps, [], hs)
  {
    forall c | 0 <= c < |cells|
      ensures CellFilled(cells[c], Filter([], hs, c), Count(hs, c), ps)
    {
      BucketBounds(hs, |cells|, c);
    }
  }

  /** Moving a cursor leaves the counts and bucket ends alone. */
  lemma LoweredKeepsEnds(cells: seq<Cell>, h: int, hs: seq<int>)
    requires BucketEnds(cells, hs) && 0 <= h < |cells|
    ensures BucketEnds(cells[h := Lowered(cells[h])], hs)
  {
    forall c | 0 <= c < |cells|
      ensures cells[h := Lowered(cells[h])][c].count == cells[c].count
      ensures cells[h := Lowered(cells[h])][c].sums == cells[c].sums
    {
    }
  }

  /** Every cell filled by the particles of `prefix`. */
  ghost predicate AllFilled(cells: seq<Cell>, ps: seq<Particle>, prefix: seq<int>, hs: seq<int>) {
    forall c {:trigger Filter(prefix, hs, c)} :: 0 <= c < |cells| ==> CellFilled(cells[c], Filter(prefix, hs, c), Count(hs, c), ps)
  }

  /** A particle that hashes to no cell (the dead) changes nothing. */
  lemma FillSkip(cells: seq<Cell>, ps: seq<Particle>, prefix: seq<int>, i: int, hs: seq<int>)
    requires AllFilled(cells, ps, prefix, hs) && 0 <= i < |hs| && !(0 <= hs[i] < |cells|)
    ensures AllFilled(cells, ps, prefix + [i], hs)
  {
    forall c | 0 <= c < |cells|
      ensures CellFilled(cells[c], Filter(prefix + [i], hs, c), Count(hs, c), ps)
    {
      FilterSnoc(prefix, i, hs, c);
      assert !HashIs(hs, i, c);
      assert Filter(prefix + [i], hs, c) == Filter(prefix, hs, c);
    }
  }

  /** A filled cell's cursor and end lie inside its bucket. */
  lemma CursorInBucket(cells: seq<Cell>, ps: seq<Particle>, prefix: seq<int>, hs: seq<int>, c: int)
    requires AllFilled(cells, ps, prefix, hs) && BucketEnds(cells, hs) && 0 <= c < |cells|
    ensures SumRange(CountsOf(hs, |cells|), 0, c) <= cells[c].atomicSums
    ensures cells[c].sums == SumRange(CountsOf(hs, |cells|), 0, c + 1)
    ensures CellFilled(cells[c], Filter(prefix, hs, c), Count(hs, c), ps)
  {
    assert CellFilled(cells[c], Filter(prefix, hs, c), Count(hs, c), ps);
    BucketBounds(hs, |cells|, c);
  }

  /** Another cell's slot written: `c` stays filled, its visited particles unchanged. */
  lemma FillStepOther(cells: seq<Cell>, ps: seq<Particle>, prefix: seq<int>, i: int, hs: seq<int>, c: int, w: int)
    requires AllFilled(cells, ps, prefix, hs) && BucketEnds(cells, hs)
    requires 0 <= i < |hs| && 0 <= hs[i] < |cells| && 0 <= c < |cells| && c != hs[i]
    requires 0 <= SumRange(CountsOf(hs, |cells|), 0, hs[i]) <= w < SumRange(CountsOf(hs, |cells|), 0, hs[i] + 1) && w < |ps|
    ensures CellFilled(cells[c], Filter(prefix + [i], hs, c), Count(hs, c), Claim(ps, w, i))
  {
    FilterSnoc(prefix, i, hs, c);
    assert !HashIs(hs, i, c);
    assert Filter(prefix + [i], hs, c) == Filter(prefix, hs, c);
    CursorInBucket(cells, ps, prefix, hs, c);
    BucketsDisjoint(hs, |cells|, c, hs[i]);
    CellFilledFrame(cells[c], Filter(prefix, hs, c), Count(hs, c), ps, w, i);
  }

  /** The particle's own cell: its cursor comes down into its bucket and the slot below the old
      cursor now holds the particle. */
  lemma FillStepOwn(cells: seq<Cell>, ps: seq<Particle>, prefix: seq<int>, i: int, hs: seq<int>)
    requires AllFilled(cells, ps, prefix, hs) && BucketEnds(cells, hs)
    requires 0 <= i < |hs| && 0 <= hs[i] < |cells|
    requires |Filter(prefix + [i], hs, hs[i])| <= Count(hs, hs[i])
    ensures 0 <= SumRange(CountsOf(hs, |cells|), 0, hs[i]) < cells[hs[i]].atomicSums <= |ps|
    ensures cells[hs[i]].atomicSums <= SumRange(CountsOf(hs, |cells|), 0, hs[i] + 1)
    ensures CellFilled(Lowered(cells[hs[i]]), Filter(prefix + [i], hs, hs[i]), Count(hs, hs[i]), Claim(ps, cells[hs[i]].atomicSums - 1, i))
  {
    var h := hs[i];
    FilterSnoc(prefix, i, hs, h);
    assert HashIs(hs, i, h);
    assert Filter(prefix + [i], hs, h) == Filter(prefix, hs, h) + [i];
    BucketBounds(hs, |cells|, h);
    CursorInBucket(cells, ps, prefix, hs, h);
    CellFilledPush(cells[h], Filter(prefix, hs, h), Count(hs, h), ps, i);
  }

  /** A particle that hashes to cell `h` finds the cursor inside `h`'s bucket, and taking the slot
      below it keeps every cell filled, its own with one more particle. */
  lemma FillStep(cells: seq<Cell>, ps: seq<Particle>, prefix: seq<int>, i: int, hs: seq<int>)
    requires AllFilled(cells, ps, prefix, hs) && BucketEnds(cells, hs)
    requires 0 <= i < |hs| && 0 <= hs[i] < |cells|
    requires |Filter(prefix + [i], hs, hs[i])| <= Count(hs, hs[i])
    ensures 1 <= cells[hs[i]].atomicSums <= |ps|
    ensures forall c :: 0 <= c < |cells| ==>
      CellFilled(cells[hs[i] := Lowered(cells[hs[i]])][c], Filter(prefix + [i], hs, c), Count(hs, c),
                 Claim(ps, cells[hs[i]].atomicSums - 1, i))
  {
    FillStepOwn(cells, ps, prefix, i, hs);
    forall c | 0 <= c < |cells|
      ensures CellFilled(cells[hs[i] := Lowered(cells[hs[i]])][c], Filter(prefix + [i], hs, c), Count(hs, c),
                         Claim(ps, cells[hs[i]].atomicSums - 1, i))
    {
      if c != hs[i] {
        FillStepOther(cells, ps, prefix, i, hs, c, cells[hs[i]].atomicSums - 1);
      }
      FillStepCell(cells, ps, prefix, i, hs, c);
    }
  }

  /** Every cell filled, one by one, is `AllFilled`. */
  lemma AllFilledIntro(cells: seq<Cell>, ps: seq<Particle>, prefix: seq<int>, hs: seq<int>)
    requires forall c :: 0 <= c < |cells| ==> CellFilled(cells[c], Filter(prefix, hs, c), Count(hs, c), ps)
    ensures AllFilled(cells, ps, prefix, hs)
  {
  }

  /** One cell after the step, from what `FillStepOwn` and `FillStepOther` say about it. */
  lemma FillStepCell(cells: seq<Cell>, ps: seq<Particle>, prefix: seq<int>, i: int, hs: seq<int>, c: int)
    requires 0 <= i < |hs| && 0 <= hs[i] < |cells| && 0 <= c < |cells| && 1 <= cells[hs[i]].atomicSums <= |ps|
    requires c == hs[i] ==> CellFilled(Lowered(cells[c]), Filter(prefix + [i], hs, c), Count(hs, c), Claim(ps, cells[hs[i]].atomicSums - 1, i))
    requires c != hs[i] ==> CellFilled(cells[c], Filter(prefix + [i], hs, c), Count(hs, c), Claim(ps, cells[hs[i]].atomicSums - 1, i))
    ensures CellFilled(cells[hs[i] := Lowered(cells[hs[i]])][c], Filter(prefix + [i], hs, c), Count(hs, c),
                       Claim(ps, cells[hs[i]].atomicSums - 1, i))
  {
  }

  /** The cell with its cursor one lower. */
  function Lowered(cell: Cell): (r: Cell)
    ensures r.atomicSums == cell.atomicSums - 1
    ensures r.(atomicSums := cell.atomicSums) == cell
  {
    cell.(atomicSums := cell.atomicSums - 1)
  }

  /** The particles with particle `i` written into the `sortIndex` of slot `w`. */
  function Claim(ps: seq<Particle>, w: int, i: int): (r: seq<Particle>)
    requires 0 <= w < |ps|
    ensures |r| == |ps| && r[w].sortIndex == i
    ensures forall j :: 0 <= j < |ps| ==> r[j] == ps[j].(sortIndex := r[j].sortIndex)
    ensures forall j :: 0 <= j < |ps| && j != w ==> r[j] == ps[j]
  {
    ps[w := ps[w].(sortIndex := i)]
  }

  /** A cell whose cursor has come down once for each particle of `f` (its particles visited
      so far, at most `population` of them), with the slots between cursor and bucket end holding
      `f` last-visited first. */
  ghost predicate CellFilled(cell: Cell, f: seq<int>, population: int, ps: seq<Particle>) {
    |f| <= population && cell.atomicSums + |f| == cell.sums
    && 0 <= cell.atomicSums && cell.sums <= |ps|
    && Slots(ps, cell.atomicSums, cell.sums) == Reverse(f)
  }

  /** A write outside a cell's filled slots leaves it filled. */
  lemma CellFilledFrame(cell: Cell, f: seq<int>, n: int, ps: seq<Particle>, w: int, i: int)
    requires CellFilled(cell, f, n, ps) && 0 <= w < |ps|
    requires w < cell.atomicSums || cell.sums <= w
    ensures CellFilled(cell, f, n, Claim(ps, w, i))
  {
    var lo, hi := cell.atomicSums, cell.sums;
    var r, r' := Slots(ps, lo, hi), Slots(Claim(ps, w, i), lo, hi);
    forall k | 0 <= k < |r'|
      ensures r'[k] == r[k]
    {
      assert lo + k != w;
    }
    assert r' == r;
  }

  /** Decrementing the cursor and writing `i` into the slot below it fills one more slot. */
  lemma CellFilledPush(cell: Cell, f: seq<int>, n: int, ps: seq<Particle>, i: int)
    requires CellFilled(cell, f, n, ps) && |f| + 1 <= n && 1 <= cell.atomicSums
    ensures CellFilled(Lowered(cell), f + [i], n, Claim(ps, cell.atomicSums - 1, i))
  {
    ReverseSnoc(f, i);
    var lo, hi := cell.atomicSums, cell.sums;
    var r, r' := Slots(ps, lo, hi), Slots(Claim(ps, lo - 1, i), lo - 1, hi);
    forall k | 0 <= k < |r'|
      ensures r'[k] == ([i] + r)[k]
    {
      if k > 0 {
        assert r'[k] == r[k - 1];
      }
    }
    assert r' == [i] + r;
  }

  class Simulation {
    const layers: nat
    const particles: array<Particle>
    const grid: array<Cell>
    const aArray1: array<int>
    const aArray2: array<int>
    const aArray3: array<int>

    /** The buffer shapes of sketch.js:846-848 with 256-wide scan chunks at both levels
        (`Config.SourceSizes` shows these are the sizes sketch.js:327-336 computes). */
    ghost predicate Valid()
      reads this
    {
      1 <= layers <= MAX_LAYERS && particles.Length == N && grid.Length == GridSize(layers)
      && aArray1.Length * MAX_SCAN_SIZE == grid.Length
      && aArray2.Length * MAX_SCAN_SIZE == aArray1.Length
      && aArray3.Length == aArray2.Length
      && aArray1 != aArray2 && aArray1 != aArray3 && aArray2 != aArray3
    }

    /** A fresh buffer: every particle dead (`init` leaves `mass` at 0, sketch.js:883-890) and
        every cell zeroed. */
    constructor (layers: nat)
      requires 1 <= layers <= MAX_LAYERS
      ensures Valid() && this.layers == layers
      ensures fresh(particles) && fresh(grid) && fresh(aArray1) && fresh(aArray2) && fresh(aArray3)
      ensures forall i :: 0 <= i < particles.Length ==> particles[i].mass == 0.0
      ensures forall c :: 0 <= c < grid.Length ==> grid[c] == Cell(0, 0, 0, 0)
    {
      this.layers := layers;
      particles := new Particle[N](_ => Particle(0.0, 0, 0, 0, 0, 0));
      grid := new Cell[GridSize(layers)](_ => Cell(0, 0, 0, 0));
      aArray1 := new int[256 * layers];
      aArray2 := new int[layers];
      aArray3 := new int[layers];
    }

    /** `culcHash` (sketch.js:901-910): every particle's hash from its mass and predicted cell. */
    method CulcHash()
      requires Valid()
      modifies particles
      ensures forall i :: 0 <= i < particles.Length ==> particles[i] == old(particles[i]).(hash :=
        ParticleHash(old(particles[i]).mass, old(particles[i]).cellX, old(particles[i]).cellY, old(particles[i]).layer, grid.Length))
      ensures Hashed(particles[..], grid.Length)
    {
      forall i | 0 <= i < particles.Length {
        particles[i] := particles[i].(hash := ParticleHash(particles[i].mass, particles[i].cellX, particles[i].cellY, particles[i].layer, grid.Length));
      }
    }

    /** `clearCount` (sketch.js:913-919): both atomic counters of every cell back to 0. The
        dispatch is one invocation per grid coordinate, which `Hashing.CellCoordsRoundTrip`
        shows is one per cell. */
    method ClearCount()
      requires Valid()
      modifies grid
      ensures forall c :: 0 <= c < grid.Length ==> grid[c] == old(grid[c]).(atomicCount := 0, atomicSums := 0)
    {
      forall c | 0 <= c < grid.Length {
        grid[c] := grid[c].(atomicCount := 0, atomicSums := 0);
      }
    }

    /** `countHash` (sketch.js:922-929): every particle whose hash is a cell adds 1 to that
        cell's counter. The additions commute, so visiting the particles in index order gives
        the result of every interleaving. */
    method CountHash()
      requires Valid()
      modifies grid
      ensures forall c :: 0 <= c < grid.Length ==>
        grid[c] == old(grid[c]).(atomicCount := old(grid[c]).atomicCount + Count(Hashes(particles[..]), c))
    {
      ghost var hs := Hashes(particles[..]);
      var i := 0;
      while i < particles.Length
        invariant 0 <= i <= particles.Length
        invariant forall c :: 0 <= c < grid.Length ==>
          grid[c] == old(grid[c]).(atomicCount := old(grid[c]).atomicCount + Count(hs[..i], c))
      {
        var h := particles[i].hash;
        if h < grid.Length {
          grid[h] := grid[h].(atomicCount := grid[h].atomicCount + 1);
        }
        assert hs[..i + 1][..i] == hs[..i];
        i := i + 1;
      }
      assert hs[..particles.Length] == hs;
    }

    /** `atomicCountToReg` (sketch.js:932-939): the tally becomes both `count` and `sums`. */
    method AtomicCountToReg()
      requires Valid()
      modifies grid
      ensures forall c :: 0 <= c < grid.Length ==>
        grid[c] == old(grid[c]).(count := old(grid[c]).atomicCount, sums := old(grid[c]).atomicCount)
    {
      forall c | 0 <= c < grid.Length {
        grid[c] := grid[c].(count := grid[c].atomicCount, sums := grid[c].atomicCount);
      }
    }

    /** The counting passes together: each cell's `count` and `sums` are its population, and the
        populations add up to the number of live particles. */
    method CountCells()
      requires Valid()
      modifies particles, grid
      ensures Hashed(particles[..], grid.Length)
      ensures forall i :: 0 <= i < particles.Length ==> particles[i] == old(particles[i]).(hash := particles[i].hash)
      ensures forall c :: 0 <= c < grid.Length ==>
        grid[c].count == grid[c].sums == Count(Hashes(particles[..]), c) && grid[c].atomicSums == 0
      ensures SumRange(CountsOf(Hashes(particles[..]), grid.Length), 0, grid.Length) == LiveCount(particles[..]) <= N
    {
      CulcHash();
      ClearCount();
      CountHash();
      AtomicCountToReg();
      ghost var hs := Hashes(particles[..]);
      CountConservation(hs, grid.Length, grid.Length);
      HashedLive(particles[..], grid.Length);
      CountBelowAtMost(hs, grid.Length);
    }

    /** One workgroup of `firstScan` (sketch.js:945-990): workgroup `w` scans cells
        `[256w, 256w + 256)` in place, leaving the inclusive prefix of the chunk in `sums`, and
        stores the chunk total in `aArray1[w]`. */
    method FirstScanGroup(w: nat, ghost a: seq<int>)
      requires Valid() && w < aArray1.Length && |a| == grid.Length
      requires forall c :: w * 256 <= c < w * 256 + 256 ==> grid[c].sums == a[c]
      modifies grid, aArray1
      ensures forall c :: 0 <= c < grid.Length && (c < w * 256 || w * 256 + 256 <= c) ==> grid[c] == old(grid[c])
      ensures forall c :: w * 256 <= c < w * 256 + 256 ==> grid[c] == old(grid[c]).(sums := SumRange(a, w * 256, c + 1))
      ensures forall v :: 0 <= v < aArray1.Length && v != w ==> aArray1[v] == old(aArray1[v])
      ensures aArray1[w] == SumRange(a, w * 256, w * 256 + 256)
    {
      ScanChunkIsPow2();
      var lo := w * 256;
      assert lo + 256 <= grid.Length;
      var vals := SumsOf(grid[lo .. lo + 256]);
      forall l | 0 <= l < 256
        ensures vals[l] == Window(a, lo, 256)[l]
      {
        assert grid[lo + l].sums == a[lo + l];
      }
      assert vals == Window(a, lo, 256);
      var incl, total := WorkgroupScan(vals);
      WindowScan(a, lo, 256);
      forall c | lo <= c < lo + 256 {
        grid[c] := grid[c].(sums := incl[c - lo]);
      }
      aArray1[w] := total;
    }

    /** `firstScan` over all workgroups: each cell's `sums` becomes the inclusive prefix of its
        chunk and `aArray1` the chunk totals. */
    method FirstScan()
      requires Valid()
      modifies grid, aArray1
      ensures forall c :: 0 <= c < grid.Length ==> grid[c] == old(grid[c]).(sums :=
        SumRange(old(SumsOf(grid[..])), (c / MAX_SCAN_SIZE) * MAX_SCAN_SIZE, c + 1))
      ensures forall w :: 0 <= w < aArray1.Length ==>
        aArray1[w] == SumRange(old(SumsOf(grid[..])), w * MAX_SCAN_SIZE, w * MAX_SCAN_SIZE + MAX_SCAN_SIZE)
    {
      ghost var a := SumsOf(grid[..]);
      var w := 0;
      while w < aArray1.Length
        invariant 0 <= w <= aArray1.Length
        invariant forall c :: 0 <= c < w * 256 ==> grid[c] == old(grid[c]).(sums := SumRange(a, (c / 256) * 256, c + 1))
        invariant forall c :: w * 256 <= c < grid.Length ==> grid[c] == old(grid[c])
        invariant forall v :: 0 <= v < w ==> aArray1[v] == SumRange(a, v * 256, v * 256 + 256)
      {
        FirstScanGroup(w, a);
        ChunkStarts(w);
        w := w + 1;
      }
    }

    /** One workgroup of `secondScan` (sketch.js:993-1038): the same scan over the chunk
        totals, in place in `aArray1`, with the total of the 256 chunk totals going to
        `aArray2[w]`. */
    method SecondScanGroup(w: nat, ghost a: seq<int>)
      requires Valid() && w < aArray2.Length && |a| == aArray1.Length
      requires forall k :: w * 256 <= k < w * 256 + 256 ==> aArray1[k] == a[k]
      modifies aArray1, aArray2
      ensures forall k :: 0 <= k < aArray1.Length && (k < w * 256 || w * 256 + 256 <= k) ==> aArray1[k] == old(aArray1[k])
      ensures forall k :: w * 256 <= k < w * 256 + 256 ==> aArray1[k] == SumRange(a, w * 256, k + 1)
      ensures forall v :: 0 <= v < aArray2.Length && v != w ==> aArray2[v] == old(aArray2[v])
      ensures aArray2[w] == SumRange(a, w * 256, w * 256 + 256)
    {
      ScanChunkIsPow2();
      var lo := w * 256;
      assert lo + 256 <= aArray1.Length;
      var vals := aArray1[lo .. lo + 256];
      forall l | 0 <= l < 256
        ensures vals[l] == Window(a, lo, 256)[l]
      {
        assert aArray1[lo + l] == a[lo + l];
      }
      assert vals == Window(a, lo, 256);
      var incl, total := WorkgroupScan(vals);
      WindowScan(a, lo, 256);
      forall k | lo <= k < lo + 256 {
        aArray1[k] := incl[k - lo];
      }
      aArray2[w] := total;
    }

    /** `secondScan` over all workgroups: `aArray1` becomes the in-chunk inclusive prefix of the
        chunk totals and `aArray2` the totals of those chunks. */
    method SecondScan()
      requires Valid()
      modifies aArray1, aArray2
      ensures forall k :: 0 <= k < aArray1.Length ==>
        aArray1[k] == SumRange(old(aArray1[..]), (k / MAX_SCAN_SIZE) * MAX_SCAN_SIZE, k + 1)
      ensures forall v :: 0 <= v < aArray2.Length ==>
        aArray2[v] == SumRange(old(aArray1[..]), v * MAX_SCAN_SIZE, v * MAX_SCAN_SIZE + MAX_SCAN_SIZE)
    {
      ghost var a := aArray1[..];
      var w := 0;
      while w < aArray2.Length
        invariant 0 <= w <= aArray2.Length
        invariant forall k :: 0 <= k < w * 256 ==> aArray1[k] == SumRange(a, (k / 256) * 256, k + 1)
        invariant forall k :: w * 256 <= k < aArray1.Length ==> aArray1[k] == a[k]
        invariant forall v :: 0 <= v < w ==> aArray2[v] == SumRange(a, v * 256, v * 256 + 256)
      {
        SecondScanGroup(w, a);
        ChunkStarts(w);
        w := w + 1;
      }
    }

    /** `scanAarray2` (sketch.js:1041-1050): every in-range invocation `v` adds up the totals
        before its own, a plain exclusive prefix of `aArray2` in `aArray3`. */
    method ScanAarray2()
      requires Valid()
      modifies aArray3
      ensures forall v :: 0 <= v < aArray3.Length ==> aArray3[v] == SumRange(aArray2[..], 0, v)
    {
      var v := 0;
      while v < aArray3.Length
        invariant 0 <= v <= aArray3.Length
        invariant forall u :: 0 <= u < v ==> aArray3[u] == SumRange(aArray2[..], 0, u)
      {
        var sum := 0;
        var i := 0;
        while i < v
          invariant 0 <= i <= v
          invariant sum == SumRange(aArray2[..], 0, i)
        {
          sum := sum + aArray2[i];
          i := i + 1;
        }
        aArray3[v] := sum;
        v := v + 1;
      }
    }

    /** `addAarray2to1` (sketch.js:1053-1058), over the in-range invocations: every chunk total
        prefix gets the carry of its second-level chunk. */
    method AddAarray2to1()
      requires Valid()
      modifies aArray1
      ensures forall k :: 0 <= k < aArray1.Length ==> aArray1[k] == old(aArray1[k]) + aArray3[k / MAX_SCAN_SIZE]
    {
      forall k | 0 <= k < aArray1.Length {
        aArray1[k] := aArray1[k] + aArray3[k / 256];
      }
    }

    /** `addAarray1toOrigin` (sketch.js:1061-1066): every cell gets the carry of its first-level
        chunk, which is nothing for chunk 0 (see `PrefixSum.CarryIndexAsWritten`). */
    method AddAarray1toOrigin()
      requires Valid()
      modifies grid
      ensures forall c :: 0 <= c < grid.Length ==>
        grid[c] == old(grid[c]).(sums := old(grid[c]).sums + CarryIn(aArray1[..], c, MAX_SCAN_SIZE))
    {
      forall c | 0 <= c < grid.Length {
        grid[c] := grid[c].(sums := grid[c].sums + CarryIn(aArray1[..], c, 256));
      }
    }

    /** `secondScan`, `scanAarray2` and `addAarray2to1` in dispatch order: `aArray1` becomes
        the inclusive prefix of the chunk totals over all chunks. */
    method ScanTotals()
      requires Valid()
      modifies aArray1, aArray2, aArray3
      ensures forall k :: 0 <= k < aArray1.Length ==> aArray1[k] == SumRange(old(aArray1[..]), 0, k + 1)
    {
      ghost var t1 := aArray1[..];
      SecondScan();
      ghost var t2 := aArray2[..];
      ghost var p1 := aArray1[..];
      assert forall k :: 0 <= k < |p1| ==> p1[k] == SumRange(t1, (k / 256) * 256, k + 1);
      assert forall v :: 0 <= v < |t2| ==> t2[v] == SumRange(t1, v * 256, v * 256 + 256);
      ScanAarray2();
      ghost var t3 := aArray3[..];
      assert forall v :: 0 <= v < |t3| ==> t3[v] == SumRange(t2, 0, v);
      AddAarray2to1();
      assert forall k :: 0 <= k < aArray1.Length ==> aArray1[k] == p1[k] + t3[k / 256];
      forall k | 0 <= k < aArray1.Length
        ensures aArray1[k] == SumRange(t1, 0, k + 1)
      {
        CarryCombine(t1, t2, 256, k);
      }
    }

    /** The five scan passes in dispatch order: every cell's `sums` becomes
        `count[0] + ... + count[c]` over the whole grid, the end of the cell's bucket. */
    method ScanSums()
      requires Valid()
      modifies grid, aArray1, aArray2, aArray3
      ensures forall c :: 0 <= c < grid.Length ==>
        grid[c] == old(grid[c]).(sums := SumRange(old(SumsOf(grid[..])), 0, c + 1))
    {
      ghost var a := SumsOf(grid[..]);
      FirstScan();
      ghost var g1 := grid[..];
      ghost var t1 := aArray1[..];
      assert forall w :: 0 <= w < |t1| ==> t1[w] == SumRange(a, w * 256, w * 256 + 256);
      ScanTotals();
      ghost var a1 := aArray1[..];
      assert forall k :: 0 <= k < |a1| ==> a1[k] == SumRange(t1, 0, k + 1);
      AddAarray1toOrigin();
      forall c | 0 <= c < grid.Length
        ensures grid[c] == old(grid[c]).(sums := SumRange(a, 0, c + 1))
      {
        assert g1[c] == old(grid[c]).(sums := SumRange(a, (c / 256) * 256, c + 1));
        TwoLevelCarry(a, t1, a1, 256, c);
      }
    }

    /** The passes of one frame before `fillIn`, in dispatch order (sketch.js:469-476):
        `culcHash`, `clearCount`, `countHash` and `atomicCountToReg`, the five scan passes, and
        `regToAtomicSums`. They leave every cell's count, bucket end and cursor as `fillIn`
        needs them. */
    method PrepareBuckets()
      requires Valid()
      modifies particles, grid, aArray1, aArray2, aArray3
      ensures forall i :: 0 <= i < particles.Length ==> particles[i] == old(particles[i]).(hash := particles[i].hash)
      ensures Hashed(particles[..], grid.Length)
      ensures BucketEnds(grid[..], Hashes(particles[..]))
      ensures forall c :: 0 <= c < grid.Length ==> grid[c].atomicSums == grid[c].sums
    {
      CountCells();
      ghost var hs := Hashes(particles[..]);
      ghost var g0 := grid[..];
      assert SumsOf(g0) == CountsOf(hs, grid.Length);
      ScanSums();
      RegToAtomicSums();
      forall c | 0 <= c < grid.Length
        ensures grid[..][c].count == Count(hs, c) && grid[..][c].sums == SumRange(CountsOf(hs, grid.Length), 0, c + 1)
      {
        assert g0[c].count == Count(hs, c);
      }
    }

    /** The bucketing passes of one frame in dispatch order (sketch.js:469-477): the passes of
        `PrepareBuckets`, then `fillIn` with its `atomicSub`s in the order `order`. Whatever the
        order, every live particle ends up exactly once in its cell's bucket and every cursor at
        its bucket's start. */
    method Frame(order: seq<int>)
      requires Valid() && multiset(order) == multiset(Range(particles.Length))
      modifies particles, grid, aArray1, aArray2, aArray3
      ensures forall i :: 0 <= i < particles.Length ==>
        particles[i] == old(particles[i]).(hash := particles[i].hash, sortIndex := particles[i].sortIndex)
      ensures Hashed(particles[..], grid.Length)
      ensures BucketEnds(grid[..], Hashes(particles[..]))
      ensures forall c :: 0 <= c < grid.Length ==> grid[c].atomicSums == grid[c].sums - grid[c].count
      ensures forall c, x :: 0 <= c < grid.Length ==>
        multiset(Slots(particles[..], grid[c].sums - grid[c].count, grid[c].sums))[x] == if HashIs(Hashes(particles[..]), x, c) then 1 else 0
    {
      PrepareBuckets();
      ghost var ps := particles[..];
      ghost var cells := grid[..];
      FillIn(order);
      assert Hashes(particles[..]) == Hashes(ps);
      assert forall i :: 0 <= i < particles.Length ==> particles[i].mass == ps[i].mass;
      assert forall c :: 0 <= c < grid.Length ==> grid[c].count == cells[c].count && grid[c].sums == cells[c].sums;
    }

    /** `regToAtomicSums` (sketch.js:1070-1075): the bucket end becomes the atomic cursor. */
    method RegToAtomicSums()
      requires Valid()
      modifies grid
      ensures forall c :: 0 <= c < grid.Length ==> grid[c] == old(grid[c]).(atomicSums := old(grid[c]).sums)
    {
      forall c | 0 <= c < grid.Length {
        grid[c] := grid[c].(atomicSums := grid[c].sums);
      }
    }

    /** After the particles of `prefix` have taken their slots: each cell's cursor has come down
        by the number of them in the cell, never more than its population, and the slots between
        the cursor and the bucket end hold those particles, the last one visited first. */
    ghost predicate Filled(prefix: seq<int>, hs: seq<int>)
      reads this, grid, particles
    {
      AllFilled(grid[..], particles[..], prefix, hs)
    }

    /** One invocation of `fillIn` (sketch.js:1078-1086): a particle that hashes to a cell takes
        the value of the cell's cursor while decrementing it, and writes its own index into the
        `sortIndex` of the slot just below. */
    method FillOne(i: nat, ghost prefix: seq<int>, ghost hs: seq<int>)
      requires Valid() && i < particles.Length && |hs| == particles.Length
      requires forall j :: 0 <= j < particles.Length ==> particles[j].hash == hs[j]
      requires BucketEnds(grid[..], hs) && Filled(prefix, hs)
      requires hs[i] < grid.Length ==> |Filter(prefix + [i], hs, hs[i])| <= Count(hs, hs[i])
      modifies grid, particles
      ensures forall j :: 0 <= j < particles.Length ==> particles[j] == old(particles[j]).(sortIndex := particles[j].sortIndex)
      ensures forall c :: 0 <= c < grid.Length ==> grid[c] == old(grid[c]).(atomicSums := grid[c].atomicSums)
      ensures BucketEnds(grid[..], hs) && Filled(prefix + [i], hs)
    {
      var h := particles[i].hash;
      ghost var ps := particles[..];
      ghost var cells := grid[..];
      if h < grid.Length {
        var val := grid[h].atomicSums;
        FillStep(cells, ps, prefix, i, hs);
        AllFilledIntro(cells[h := Lowered(cells[h])], Claim(ps, val - 1, i), prefix + [i], hs);
        LoweredKeepsEnds(cells, h, hs);
        grid[h] := grid[h].(atomicSums := val - 1);
        particles[val - 1] := particles[val - 1].(sortIndex := i);
        assert grid[..] == cells[h := Lowered(cells[h])];
        assert particles[..] == Claim(ps, val - 1, i);
        forall j | 0 <= j < particles.Length
          ensures particles[j] == old(particles[j]).(sortIndex := particles[j].sortIndex)
        {
          assert particles[j] == Claim(ps, val - 1, i)[j] && old(particles[j]) == ps[j];
        }
      } else {
        FillSkip(cells, ps, prefix, i, hs);
      }
    }

    /** The invocations of `fillIn` (sketch.js:1078-1086) with their `atomicSub`s taking effect
        in the order `order`, one after another. */
    method FillAll(order: seq<int>, ghost hs: seq<int>)
      requires Valid() && |hs| == particles.Length && multiset(order) == multiset(Range(|hs|))
      requires forall j :: 0 <= j < particles.Length ==> particles[j].hash == hs[j]
      requires BucketEnds(grid[..], hs) && Filled([], hs)
      modifies grid, particles
      ensures forall j :: 0 <= j < particles.Length ==> particles[j] == old(particles[j]).(sortIndex := particles[j].sortIndex)
      ensures forall c :: 0 <= c < grid.Length ==> grid[c] == old(grid[c]).(atomicSums := grid[c].atomicSums)
      ensures BucketEnds(grid[..], hs) && Filled(order, hs)
    {
      assert |order| == |hs| by {
        assert |multiset(order)| == |multiset(Range(|hs|))|;
      }
      assert order[..0] == [];
      var t := 0;
      while t < |order|
        invariant 0 <= t <= |order|
        invariant forall j :: 0 <= j < particles.Length ==> particles[j] == old(particles[j]).(sortIndex := particles[j].sortIndex)
        invariant forall c :: 0 <= c < grid.Length ==> grid[c] == old(grid[c]).(atomicSums := grid[c].atomicSums)
        invariant BucketEnds(grid[..], hs)
        invariant Filled(order[..t], hs)
      {
        var i := order[t];
        OrderStep(order, hs, t);
        FillOne(i, order[..t], hs);
        t := t + 1;
      }
      assert order[..t] == order;
    }

    /** `fillIn` (sketch.js:1078-1086) with the `atomicSub`s taking effect in the order `order`,
        any ordering of the particle indices. Whatever the order, every cursor ends at the start
        of its bucket and every bucket's slots hold exactly the particles hashing to its cell,
        each once. */
    method FillIn(order: seq<int>)
      requires Valid() && multiset(order) == multiset(Range(particles.Length))
      requires BucketEnds(grid[..], Hashes(particles[..]))
      requires forall c :: 0 <= c < grid.Length ==> grid[c].atomicSums == grid[c].sums
      modifies grid, particles
      ensures forall j :: 0 <= j < particles.Length ==> particles[j] == old(particles[j]).(sortIndex := particles[j].sortIndex)
      ensures forall c :: 0 <= c < grid.Length ==> grid[c] == old(grid[c]).(atomicSums := old(grid[c]).sums - old(grid[c]).count)
      ensures forall c, x :: 0 <= c < grid.Length ==>
        multiset(Slots(particles[..], grid[c].sums - grid[c].count, grid[c].sums))[x] == if HashIs(Hashes(old(particles[..])), x, c) then 1 else 0
    {
      ghost var hs := Hashes(particles[..]);
      FillStart(grid[..], particles[..], hs);
      FillAll(order, hs);
      FilledBuckets(grid[..], particles[..], order, hs);
      forall c | 0 <= c < grid.Length
        ensures grid[c].atomicSums == grid[c].sums - grid[c].count
        ensures forall x :: multiset(Slots(particles[..], grid[c].sums - grid[c].count, grid[c].sums))[x] == if HashIs(hs, x, c) then 1 else 0
      {
        assert grid[c] == grid[..][c];
      }
    }
  }
}
