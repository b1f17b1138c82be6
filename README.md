# A verified model of the particle bucketing, emitters and mass lifecycle of `sketch.js`

`sketch.js` is a browser fluid simulator: smoothed-particle hydrodynamics on WebGPU. Each frame
it runs a fixed sequence of compute passes over one storage buffer, `sim`. That buffer holds
262144 particles, a 256 × 256 grid per layer (one layer per flow, at most fifty) and three
scratch arrays for a prefix sum. This project models the core of that frame in Dafny:

- **Spatial hashing** (`hashing.dfy`): `getCellInd` and `getHash`, the hash `culcHash` stores
  for every particle, and the 3 × 3 neighbour lookup of the density and force passes.
- **Counting** (`pipeline.dfy`, `buckets.dfy`): `clearCount`, `countHash` and
  `atomicCountToReg` leave every cell's population in `count` and `sums`. The populations add
  up to the number of live particles.
- **The three-level prefix sum** (`blelloch.dfy`, `prefixsum.dfy`, `pipeline.dfy`):
  - `firstScan` and `secondScan` run the workgroup up-sweep/down-sweep.
  - `scanAarray2`, `addAarray2to1` and `addAarray1toOrigin` carry chunk totals between levels.
  - Together they turn the populations into bucket ends.
- **The bucket sort** (`pipeline.dfy`): `regToAtomicSums` and `fillIn`. Whatever order the
  `atomicSub`s take effect in, every cursor ends at its bucket's start. Every bucket then holds
  exactly the particles of its cell, each once.
- **Emitters** (`emitters.dfy`): the host loop hands each flow a range of particle ids at the
  cursor `spawnPartId`, wrapping at `N`. The shader looks each particle id up among the flows'
  ranges. The two agree while a frame hands out at most `N` ids and the range being looked up
  did not wrap.
- **The mass lifecycle** (`lifecycle.dfy`): the reset and window kills, the respawn, and the
  grow/decay/cutoff rule at the end of `updatePart`.
- **The SPH kernels** (`kernels.dfy`) and the factors the host computes for them.
- **`extractBracedBlock`** (`braces.dfy`): cuts each kernel's body out of the shader text.

The model's structure:

- The GPU buffers are the arrays of the class `Pipeline.Simulation`. Each pass is a method.
- Invocations of a pass that do not interact are one `forall` statement.
- Atomic updates are a loop over the invocations. The loop runs in index order where the
  updates commute (`countHash`). It runs in any given order where they do not (`fillIn`).
- One workgroup's shared-memory scan is a method on a local array. Each step between two
  barriers is one whole-array `forall` step.
- `f32` values are `real`. `u32` arithmetic is written out with `Config.U32`.

The spawn id ranges do not wrap the way the host hands them out. The host moves its cursor
past each flow's range and wraps it with `spawnPartId %= N` (sketch.js:1641-1642), so a
flow's ids can run past `N - 1` and continue at 0. The shader's `fixNum` correction
(sketch.js:1308) corrects only a `u32` overflow of `spawnId + spawnNum`. For `spawnId < N`,
it fires only for a count of at least `2^32 - spawnId` (`Emitters.FixNeedsOverflow`). So a
range the host wrapped past `N` claims only its ids below `N`. The model follows the code:
`Emitters.WrappedIdsUnclaimed` states the gap, and `Emitters.DeviceFindsHostFlow` is stated
for ids that did not wrap.

## Model

| member | source | states |
|---|---|---|
| Config.SourceSizes | sketch.js:326-336 | For 1 to 50 layers: `GRID_SIZE` is 65536 per layer and stays below the dead-particle hash; both scan levels use 256-wide chunks; `FSCAN_CHUNK_NUM` is 256 per layer; `SSCAN_CHUNK_NUM` is one per layer |
| Hashing.GetHash | sketch.js:1382-1385 | Every coordinate, including one that wrapped below zero, hashes to a cell of the grid |
| Hashing.HashInsideGrid | sketch.js:1377-1385 | Inside the grid `getCellInd` does not wrap, `getHash` equals it, and `CellCoords` recovers the coordinate |
| Hashing.CellCoordsRoundTrip | sketch.js:1377-1380 | Every cell index is `getCellInd` of one in-range coordinate, so a pass dispatched over the grid visits each cell |
| Hashing.ParticleHash | sketch.js:900-910 | The stored hash is `0xffffffff` exactly when the particle is dead; a live particle's hash is a cell |
| Hashing.NeighbourHash | sketch.js:1101-1102 | Every stencil neighbour, even past the grid's edge, is looked up in some cell |
| Hashing.NeighbourInside | sketch.js:1101-1102 | A neighbour inside the grid is looked up in its own cell |
| Hashing.NeighbourWrapsLeft | sketch.js:1101-1102 | The left neighbour of a column-0 cell is not skipped: the lookup reads the cell just before the row's first cell |
| Buckets.CountConservation | sketch.js:921-929 | The populations of the first `k` cells add up to the number of hashes below `k` |
| Buckets.FilterOfPermutation | sketch.js:1077-1086 | Visiting the particles in any order meets exactly the cell's own particles, as many as its population |
| Pipeline.HashedLive | sketch.js:900-929 | Once hashed, the particles counted into some cell are exactly the live ones |
| Pipeline.BucketBounds | sketch.js:1060-1086 | Cell `c`'s bucket starts at the population of the earlier cells, is as long as `c`'s population, and lies inside the particle array |
| Pipeline.BucketsDisjoint | sketch.js:1060-1086 | The buckets of two different cells do not overlap |
| Pipeline.FillStep | sketch.js:1080-1085 | One `atomicSub`: the cursor lies inside the particle's bucket; after the write, every cell is still filled, and the particle's own cell has one more particle |
| Pipeline.FillSkip | sketch.js:1082 | A particle with no cell (a dead one) changes no cell |
| Pipeline.FilledBuckets | sketch.js:1077-1086 | Once the whole order is visited, every cursor is at its bucket's start and every bucket holds each of its cell's particles once and nothing else |
| Pipeline.Simulation.constructor | sketch.js:882-890 | A fresh buffer has every particle dead and every cell zeroed |
| Pipeline.Simulation.CulcHash | sketch.js:900-910 | Every particle's `hash` becomes `ParticleHash` of its mass and cell; nothing else changes |
| Pipeline.Simulation.ClearCount | sketch.js:912-919 | Both atomic counters of every cell become 0; nothing else changes |
| Pipeline.Simulation.CountHash | sketch.js:921-929 | Every cell's `atomicCount` grows by the number of particles hashing to it |
| Pipeline.Simulation.AtomicCountToReg | sketch.js:931-939 | Every cell's `count` and `sums` become its tally |
| Pipeline.Simulation.CountCells | sketch.js:900-939 | After the counting passes each cell's `count` and `sums` are its population, and the populations add up to the live particles, at most `N` |
| Pipeline.Simulation.FirstScanGroup | sketch.js:944-990 | Workgroup `w` leaves the inclusive prefix of its 256 cells in `sums` and the chunk total in `aArray1[w]`; no other cell or total changes |
| Pipeline.Simulation.FirstScan | sketch.js:944-990 | Every cell's `sums` becomes the inclusive prefix within its chunk, and `aArray1` holds the chunk totals |
| Pipeline.Simulation.SecondScanGroup | sketch.js:992-1038 | The same scan, over one chunk of 256 chunk totals in `aArray1`, with their total in `aArray2[w]` |
| Pipeline.Simulation.SecondScan | sketch.js:992-1038 | `aArray1` becomes the in-chunk inclusive prefix of the chunk totals, and `aArray2` the totals of those chunks |
| Pipeline.Simulation.ScanAarray2 | sketch.js:1040-1050 | `aArray3[v]` becomes the sum of `aArray2[0 .. v - 1]` |
| Pipeline.Simulation.AddAarray2to1 | sketch.js:1052-1058 | Every entry of `aArray1` gets the carry of its second-level chunk |
| Pipeline.Simulation.AddAarray1toOrigin | sketch.js:1060-1066 | Every cell gets the carry of its first-level chunk, which is nothing for chunk 0 |
| Pipeline.Simulation.ScanTotals | sketch.js:992-1058 | The second-level passes together leave the inclusive prefix of all chunk totals in `aArray1` |
| Pipeline.Simulation.ScanSums | sketch.js:944-1066 | The five scan passes leave `count[0] + ... + count[c]` in every cell's `sums`: the end of its bucket |
| Pipeline.Simulation.RegToAtomicSums | sketch.js:1069-1075 | Every cell's cursor `atomicSums` starts at its bucket's end |
| Pipeline.Simulation.FillOne | sketch.js:1077-1086 | One `fillIn` invocation moves its cell's cursor one slot down, writes the particle's index into the slot below the old cursor, and keeps every cell filled |
| Pipeline.Simulation.FillAll | sketch.js:1077-1086 | All `fillIn` invocations in the given order keep the bucket ends and fill every cell with its particles visited |
| Pipeline.Simulation.FillIn | sketch.js:1077-1086 | For any order of the `atomicSub`s, every cursor ends at `sums - count`, and slots `[sums - count, sums)` hold each particle of the cell once and nothing else |
| Pipeline.Simulation.PrepareBuckets | sketch.js:469-476 | The passes before `fillIn`, run in dispatch order, leave every live particle hashed to a cell, every cell's `count` its population, its `sums` its bucket end, and its cursor at that end. They change no particle field but the hash |
| Pipeline.Simulation.Frame | sketch.js:469-477 | The bucketing passes of a frame in dispatch order. For any order of the `atomicSub`s, each bucket `[sums - count, sums)` ends up holding exactly the particles hashing to its cell, each once, and each cursor ends at its bucket's start |
| Blelloch.UpSweepStep | sketch.js:958-963 | Between two barriers each position `j` with `(j + 1) % 2d == 0` adds the value `d` to its left; every other position is unchanged |
| Blelloch.DownSweepStep | sketch.js:972-983 | Between two barriers each pair's left cell takes the right cell's value and the right cell adds the left one's old value; every other position is unchanged |
| Blelloch.UpStep | sketch.js:956-964 | An up-sweep step with stride `d` doubles the span of inputs each position sums |
| Blelloch.StartDown | sketch.js:966-969 | Clearing the last element after the up-sweep starts the down-sweep with one block |
| Blelloch.DownStep | sketch.js:971-984 | A down-sweep step with stride `d` halves the blocks, each block's last position holding the sum before it |
| Blelloch.SweepDone | sketch.js:971-984 | With blocks of size 1, every position holds the sum of the inputs before it |
| Blelloch.UpSweep | sketch.js:955-964 | The up-sweep leaves each position the sum of its span |
| Blelloch.DownSweep | sketch.js:966-984 | The down-sweep turns the up-swept array into the exclusive prefix of the chunk |
| Blelloch.Sweep | sketch.js:954-984 | A power-of-two chunk ends up holding its exclusive prefix sums |
| PrefixSum.WorkgroupScan | sketch.js:944-990 | Adding `initVal` back gives the inclusive prefix of the chunk; the chunk total is the sum of the chunk |
| PrefixSum.WindowScan | sketch.js:950-986 | Scanning a chunk copied out of the grid gives the grid's sums from the chunk's start |
| PrefixSum.ChunkTotals | sketch.js:1040-1050 | The totals of the first `k` chunks add up to the sum of the first `k` chunks |
| PrefixSum.CarryCombine | sketch.js:1052-1066 | A position's in-chunk prefix plus the totals of the earlier chunks is its prefix over everything |
| PrefixSum.CarryIn | sketch.js:1060-1066 | The carry cell `c` receives is 0 in chunk 0 and the previous chunk's accumulated total otherwise |
| PrefixSum.CarryInIsEarlierChunks | sketch.js:1060-1066 | The carry is the sum of the totals of all earlier chunks |
| PrefixSum.TwoLevelCarry | sketch.js:1052-1066 | A cell's in-chunk prefix plus its carry is its prefix over the whole grid |
| PrefixSum.RacedChunkTotal | sketch.js:985-988 | The total lane 0 stores when it reads before the last lane adds `initVal` back misses exactly the last count |
| PrefixSum.RacedTotalWrongIffLastNonEmpty | sketch.js:985-988 | That early total is right exactly when the chunk's last cell is empty |
| PrefixSum.RacedTotalCounterexample | sketch.js:985-988 | On counts `[0, 1]` the early total is 0, not 1 |
| PrefixSum.CarryIndexAsWritten | sketch.js:1065 | The `aArray1` index read is `c / 256 - 1` in `u32` |
| PrefixSum.CarryIndexUnderflows | sketch.js:1065 | For every cell of chunk 0 that index wraps to `0xffffffff`, past the end of `aArray1` |
| Emitters.SpawnNum | sketch.js:1631 | A flow takes no ids exactly when it is not spawning or has nothing to emit |
| Emitters.CursorAt | sketch.js:1641-1642 | The cursor always stays below `N` |
| Emitters.CursorClosedForm | sketch.js:1641-1642 | The cursor at flow `i` is the start plus every id taken before it, mod `N` |
| Emitters.SlotOffset | sketch.js:1641-1642 | Slot `k` of flow `i` lies the ids taken before `i` plus `k` past the frame's starting cursor, mod `N` |
| Emitters.FlowsDisjoint | sketch.js:1631-1642 | While a frame hands out at most `N` ids, no id goes to two flows |
| Emitters.SpawnCursor.constructor | sketch.js:385 | The cursor starts at 0 |
| Emitters.SpawnCursor.AssignFlows | sketch.js:1587-1643 | Flow `i` gets the cursor it is reached with as `spawnId` and `spawnPartNum` ids; the cursor moves past all of them, wrapping at `N` |
| Emitters.AdvanceCursor | sketch.js:1587-1643 | The flow loop's list is `AssignedFlows` and its final cursor is `CursorAt` after the last flow |
| Emitters.AssignedFlowsAt | sketch.js:1631-1642 | Entry `j` of the list is flow `j` with the cursor it is reached with |
| Emitters.SatU32 | sketch.js:1305-1306 | `u32` of an `f32` count is the count itself inside the `u32` range |
| Emitters.FirstClaim | sketch.js:1303-1319 | The result is the first flow whose range holds the id, or -1 when none does |
| Emitters.FindFlow | sketch.js:1301-1319 | The lookup loop finds the first claiming flow, and `idu` is the offset into that flow's range |
| Emitters.ClaimsInRange | sketch.js:1305-1312 | A range inside `u32` claims exactly the ids from its start up to its end, and `idu` counts from the start |
| Emitters.FixNeedsOverflow | sketch.js:1308 | The wrap correction fires only when the range end overflows `u32` |
| Emitters.WrappedIdsUnclaimed | sketch.js:1305-1311 | A range the host wrapped past `N` does not claim the ids it wrapped onto |
| Emitters.DeviceFindsHostFlow | sketch.js:1303-1319 | An id the host gave flow `i` without wrapping is looked up as flow `i`'s, at its offset into the range, while a frame hands out at most `N` ids |
| Lifecycle.Step | sketch.js:1347 | `step(edge, x)` is 1 exactly when `edge <= x` and 0 exactly when `x < edge` |
| Lifecycle.ResetKill | sketch.js:1261 | Holding the reset key zeroes the mass; otherwise the mass is kept |
| Lifecycle.OutOfWindowIsOutsideRect | sketch.js:1293-1297 | The centred distance test is the test of being outside the window rectangle |
| Lifecycle.SurvivingMass | sketch.js:1261-1298 | The mass after the kills is the old mass or 0, and 0 exactly when the particle was dead, the reset key is held, or it left the window |
| Lifecycle.GrowMass | sketch.js:1346 | The grown mass is never below the cutoff |
| Lifecycle.GrowFraction | sketch.js:1346 | The fraction of the grow window is at most 1 |
| Lifecycle.BelowCutoffDies | sketch.js:1347 | A mass below the cutoff ends at exactly 0 |
| Lifecycle.GrowingStaysAlive | sketch.js:1347 | Inside the grow window a mass at or above the cutoff stays at or above it |
| Lifecycle.GrowthCapped | sketch.js:1346-1347 | Inside the grow window the mass never exceeds the larger of the cutoff and the particle mass |
| Lifecycle.FractionMonotone | sketch.js:1346 | With a positive grow time and a non-negative slope, the grow fraction does not decrease as the clock advances |
| Lifecycle.GrowMonotone | sketch.js:1346 | Under the same conditions and a non-negative particle mass, `growMass` does not decrease as the clock advances |
| Lifecycle.GrowingMassNonDecreasing | sketch.js:1345-1347 | From one frame to a later one inside the grow window, a particle at or above the cutoff does not lose mass |
| Lifecycle.DecayShrinks | sketch.js:1345-1347 | After the grow window a live mass never grows and stays non-negative while the decay factor `1 - massDecay·dt` lies in `[0, 1]`, and a positive mass strictly shrinks once `massDecay·dt > 0` |
| Lifecycle.UpdatePart | sketch.js:1255-1349 | A particle a spawning flow claims is reborn: cutoff mass, current time, the flow's layer and index. Any other particle keeps its fields except the mass, which goes through the kills and the mass rule. A killed or dead particle ends at mass 0 when the cutoff is positive. A reborn one stays at or above the cutoff |
| Kernels.SetupFactors | sketch.js:284-294 | The host's factors make a valid kernel set: `inv_h` is the inverse of `h`, the kernel factors are positive, and each gradient factor is minus the power times its kernel's factor |
| Kernels.QShape | sketch.js:774-806 | `q` lies in `[0, 1]`, is 0 exactly at and beyond `h`, and is `1 - r / h` inside |
| Kernels.OutsideSupport | sketch.js:774-806 | Every kernel and gradient is 0 at and beyond `h` |
| Kernels.InsideSupport | sketch.js:774-797 | Inside the support the kernels are positive and the gradients negative |
| Kernels.QMonotone | sketch.js:774-776 | `q` does not grow with the distance |
| Kernels.KernelsMonotone | sketch.js:774-797 | The kernels fall and the gradients rise toward 0 as the distance grows |
| Kernels.GradientsMatchKernels | sketch.js:774-792 | Each gradient is minus the `q`-derivative of its kernel: `q * dW/dq = n * W` |
| Kernels.STKernelContinuous | sketch.js:799-806 | The two branches of the surface-tension kernel meet at `h / 2` |
| Kernels.STKernelAtZero | sketch.js:799-806 | At zero distance the surface-tension kernel is `-h^3 / 64` times its factor, which is negative |
| Braces.StepChar | sketch.js:1855-1863 | A quote toggles the quote state; outside quotes `{` deepens and `}` lifts the depth; anything else changes nothing |
| Braces.ExtractBracedBlock | sketch.js:1849-1866 | The result is the shortest prefix from the start index whose final `}`, outside quotes, brings the depth back to 0, or the whole rest when there is none; it is empty past the end |
| Braces.BlockIsShortest | sketch.js:1849-1866 | No closing prefix is shorter than the block |
| Braces.IsBlockUnique | sketch.js:1849-1866 | The block is determined by the text |
| Braces.NestedExample | sketch.js:1849-1866 | On `{{}}x` the block is `{{}}` |
| Braces.QuotedExample | sketch.js:1849-1866 | On `{'}'}x` the quoted brace does not close the block |
| Braces.UnclosedExample | sketch.js:1849-1866 | On `}{` nothing closes, so the whole text comes back |

## Left out

- GPU concurrency is not modelled. Passes run one after another. Within a pass, independent
  invocations are a `forall` statement and atomic updates are a sequential loop. For
  `fillIn`, every order of the `atomicSub`s is covered by making the order a parameter.
- Pipeline.Simulation.ScanAarray2 / AddAarray2to1: only the in-range invocations are
  modelled. `scanAarray2` runs `256 × layers` invocations against `aArray3` of `layers`
  entries, and `addAarray2to1` runs `65536 × layers` invocations against `aArray1` of
  `256 × layers` entries (sketch.js:474-475, 846-848). The others index past `aArray3` /
  `aArray1` with no guard, and their effect is not captured.
- `f32` arithmetic is modelled as exact `real` arithmetic. No rounding, infinities or NaN. `PI`
  is a parameter of `Kernels.SetupFactors`.
- Lifecycle.GrowMass: a zero `massGrowTime` gives an `f32` infinity in the source. The model
  takes the cutoff there, which is what `max` yields for negative infinity. Positive infinity
  is not modelled.
- Emitters.SatU32: the `f32` to `u32` conversion is taken to saturate at the top of the range.
  Negative and fractional counts do not occur, because the host writes whole non-negative
  numbers.
- Emitters.FindFlow: when no flow claims the id, the model states nothing about `idu`, which
  the source leaves at the last flow's offset. The particle does not respawn then, so nothing
  reads it.
- The host's floating-point spawn counting is an input: `fluidLen`, `spawnLen` and
  `spawnBold`. So are mouse input, time stamps and flow delays. `AssignFlows` takes each
  flow's spawning flag, count and layer.
- The physics of `updatePart` is not modelled: velocity, forces, noise, rotation, and the
  spawn position and velocity. The position the particle moved to is an input of
  `Lifecycle.UpdatePart`. So is the particle's cell coordinate `vec2u(pPos * inv_h)` in the
  hashing.
- The density, pressure and force passes, drawing, colour accumulation, the random number
  generators, the UI, the WebGPU set-up, and frame saving are not part of this model.
- Braces.ExtractBracedBlock: the start index is a natural number. The -1 that `indexOf`
  returns for a text without `{` is not modelled.
- Pipeline.Simulation.FirstScanGroup / FirstScan: the chunk totals are the evidently
  intended ones, not the raced ones the code can store (see Findings).
- Pipeline.Simulation.SecondScanGroup / SecondScan: the same holds for the second-level totals.
- PrefixSum.CarryIn / Pipeline.Simulation.AddAarray1toOrigin: the model adds no carry to
  chunk 0, not the out-of-bounds read the code performs (see Findings).

## Findings

| source | as written | input that shows it | evidently intended | confidence | as-written member | corrected member |
|---|---|---|---|---|---|---|
| sketch.js:985-988 | Lane 0 stores `sArray[last]` as the chunk total. Nothing orders that read after the last lane's `sArray[lid.x] += initVal`, so the read can return the exclusive prefix instead. The same holds for `secondScan` (sketch.js:1033-1036). | A chunk whose counts are `[0, …, 0, 1]`: the early read stores 0 instead of 1. | The chunk total is the sum of the chunk: a barrier between adding `initVal` back and lane 0's read. | not executed | PrefixSum.RacedTotalCounterexample | PrefixSum.WorkgroupScan |
| sketch.js:1065 | Cell `c` adds `aArray1[c / 256 - 1]`. In chunk 0 the `u32` index wraps to `0xffffffff`, past the end of `aArray1`. | Any cell `c < 256`: the index is `0xffffffff` while `aArray1` has `256 × layers` entries. | Chunk 0 adds no carry. | not executed | PrefixSum.CarryIndexUnderflows | Pipeline.Simulation.AddAarray1toOrigin |
