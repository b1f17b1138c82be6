/** Emitter slot assignment. Every frame the host walks the flows and hands each one a range of
    particle ids starting at the cursor `spawnPartId` (sketch.js:1587-1643); on the device each
    particle looks for the first flow whose range holds its id (sketch.js:1303-1319). The
    host's floating-point spawn counting (`fluidLen`, `spawnBold`) is not modelled: the number
    of particles a flow would emit this frame is an input. */
module Emitters {
  import opened Sums
  import opened Config

  /** What the shader reads of one entry of the flow buffer: whether the flow is spawning, the
      first id of its range, how many ids it takes, and the grid layer (`offsetPos.z`) its
      particles are born in. */
  datatype Flow = Flow(isSpawning: bool, spawnId: nat, spawnNum: nat, layer: int)

  // ---------------------------------------------------------------------------------------
  // Host side: the spawn cursor.

  /** `spawnPartNum`: a flow that is not spawning takes no ids. */
  function SpawnNum(spawning: bool, amount: nat): (r: nat)
    ensures r == 0 <==> !spawning || amount == 0
  {
    if spawning then amount else 0
  }

  /** The ids taken by flows `0 .. i - 1` together. */
  function Taken(spawning: seq<bool>, amounts: seq<nat>, i: nat): nat
    requires i <= |spawning| == |amounts|
  {
    if i == 0 then 0 else Taken(spawning, amounts, i - 1) + SpawnNum(spawning[i - 1], amounts[i - 1])
  }

  /** The cursor when flow `i` is reached: the previous flow's start plus its count, mod `N`. */
  function CursorAt(start: nat, spawning: seq<bool>, amounts: seq<nat>, i: nat): (r: nat)
    requires start < N && i <= |spawning| == |amounts|
    ensures r < N
  {
    if i == 0 then start
    else (CursorAt(start, spawning, amounts, i - 1) + SpawnNum(spawning[i - 1], amounts[i - 1])) % N
  }

  /** Reducing mod `N` before or after adding gives the same residue. */
  lemma AddMod(a: int, x: int)
    ensures (a % N + x) % N == (a + x) % N
  {
    var q, r := a / N, a % N;
    var q', r' := (r + x) / N, (r + x) % N;
    ModUnique(a + x, N, q + q', r');
  }

  /** The cursor is the start advanced by everything taken so far, mod `N`. */
  lemma {:induction false} CursorClosedForm(start: nat, spawning: seq<bool>, amounts: seq<nat>, i: nat)
    requires start < N && i <= |spawning| == |amounts|
    ensures CursorAt(start, spawning, amounts, i) == (start + Taken(spawning, amounts, i)) % N
  {
    if i == 0 {
      ModUnique(start, N, 0, start);
    } else {
      CursorClosedForm(start, spawning, amounts, i - 1);
      AddMod(start + Taken(spawning, amounts, i - 1), SpawnNum(spawning[i - 1], amounts[i - 1]));
    }
  }

  /** Slot `k` of flow `i` lies `Taken(.., i) + k` ids past the frame's starting cursor. */
  lemma SlotOffset(start: nat, spawning: seq<bool>, amounts: seq<nat>, i: nat, k: nat)
    requires start < N && i < |spawning| == |amounts|
    ensures ((CursorAt(start, spawning, amounts, i) + k) % N - start) % N
         == (Taken(spawning, amounts, i) + k) % N
  {
    var t := Taken(spawning, amounts, i);
    CursorClosedForm(start, spawning, amounts, i);
    AddMod(start + t, k);
    AddMod(start + t + k, -(start as int));
  }

  lemma {:induction false} TakenMonotone(spawning: seq<bool>, amounts: seq<nat>, i: nat, j: nat)
    requires i <= j <= |spawning| == |amounts|
    ensures Taken(spawning, amounts, i) + SumNumsBetween(spawning, amounts, i, j) == Taken(spawning, amounts, j)
    decreases j - i
  {
    if i < j {
      TakenMonotone(spawning, amounts, i, j - 1);
    }
  }

  /** The ids taken by flows `i .. j - 1`. */
  function SumNumsBetween(spawning: seq<bool>, amounts: seq<nat>, i: nat, j: nat): nat
    requires i <= j <= |spawning| == |amounts|
    decreases j - i
  {
    if i == j then 0 else SumNumsBetween(spawning, amounts, i, j - 1) + SpawnNum(spawning[j - 1], amounts[j - 1])
  }

  /** While a frame hands out at most `N` ids, no two flows are given the same id. */
  lemma FlowsDisjoint(start: nat, spawning: seq<bool>, amounts: seq<nat>, i: nat, k: nat, j: nat, l: nat)
    requires start < N && i < j < |spawning| == |amounts|
    requires Taken(spawning, amounts, |spawning|) <= N
    requires k < SpawnNum(spawning[i], amounts[i]) && l < SpawnNum(spawning[j], amounts[j])
    ensures (CursorAt(start, spawning, amounts, i) + k) % N != (CursorAt(start, spawning, amounts, j) + l) % N
  {
    var ti, tj := Taken(spawning, amounts, i), Taken(spawning, amounts, j);
    TakenMonotone(spawning, amounts, i + 1, j);
    TakenMonotone(spawning, amounts, j, |spawning|);
    assert tj + SpawnNum(spawning[j], amounts[j]) <= Taken(spawning, amounts, j + 1);
    TakenMonotone(spawning, amounts, j + 1, |spawning|);
    assert Taken(spawning, amounts, i + 1) == ti + SpawnNum(spawning[i], amounts[i]);
    assert ti + k < tj + l < N;
    SlotOffset(start, spawning, amounts, i, k);
    SlotOffset(start, spawning, amounts, j, l);
    ModUnique(ti + k, N, 0, ti + k);
    ModUnique(tj + l, N, 0, tj + l);
  }

  /** The host's persistent cursor `spawnPartId`. */
  class SpawnCursor {
    var spawnPartId: nat

    ghost predicate Valid()
      reads this
    {
      spawnPartId < N
    }

    constructor ()
      ensures Valid() && spawnPartId == 0
    {
      spawnPartId := 0;
    }

    /** The flow loop of one frame (sketch.js:1587-1643): flow `i` is given the cursor as its
        `spawnId` and `spawnPartNum` ids, and the cursor moves past them, wrapping at `N`. */
    method AssignFlows(spawning: seq<bool>, amounts: seq<nat>, layers: seq<int>) returns (flows: seq<Flow>)
      requires Valid() && |spawning| == |amounts| == |layers|
      modifies this
      ensures Valid()
      ensures |flows| == |spawning|
      ensures forall i :: 0 <= i < |flows| ==>
        flows[i] == Flow(spawning[i], CursorAt(old(spawnPartId), spawning, amounts, i), SpawnNum(spawning[i], amounts[i]), layers[i])
      ensures spawnPartId == CursorAt(old(spawnPartId), spawning, amounts, |spawning|)
    {
      var start := spawnPartId;
      flows, spawnPartId := AdvanceCursor(start, spawning, amounts, layers);
      AssignedFlowsAt(start, spawning, amounts, layers, |spawning|);
    }
  }

  /** The flows of `0 .. i - 1`, each given the cursor it is reached with. */
  function AssignedFlows(start: nat, spawning: seq<bool>, amounts: seq<nat>, layers: seq<int>, i: nat): (r: seq<Flow>)
    requires start < N && i <= |spawning| == |amounts| == |layers|
    ensures |r| == i
  {
    if i == 0 then [] else
    AssignedFlows(start, spawning, amounts, layers, i - 1)
      + [Flow(spawning[i - 1], CursorAt(start, spawning, amounts, i - 1), SpawnNum(spawning[i - 1], amounts[i - 1]), layers[i - 1])]
  }

  /** Flow `j` of the list is flow `j` of the frame, given the cursor it is reached with. */
  lemma {:induction false} AssignedFlowsAt(start: nat, spawning: seq<bool>, amounts: seq<nat>, layers: seq<int>, i: nat)
    requires start < N && i <= |spawning| == |amounts| == |layers|
    ensures forall j {:trigger AssignedFlows(start, spawning, amounts, layers, i)[j]} :: 0 <= j < i ==>
      AssignedFlows(start, spawning, amounts, layers, i)[j] == Flow(spawning[j], CursorAt(start, spawning, amounts, j), SpawnNum(spawning[j], amounts[j]), layers[j])
  {
    if i > 0 {
      AssignedFlowsAt(start, spawning, amounts, layers, i - 1);
    }
  }

  /** The flow loop of `AssignFlows` on the cursor value. */
  method AdvanceCursor(start: nat, spawning: seq<bool>, amounts: seq<nat>, layers: seq<int>) returns (flows: seq<Flow>, cursor: nat)
    requires start < N && |spawning| == |amounts| == |layers|
    ensures flows == AssignedFlows(start, spawning, amounts, layers, |spawning|)
    ensures cursor == CursorAt(start, spawning, amounts, |spawning|)
  {
    flows, cursor := [], start;
    var i := 0;
    while i < |spawning|
      invariant 0 <= i <= |spawning| && |flows| == i
      invariant cursor == CursorAt(start, spawning, amounts, i)
      invariant flows == AssignedFlows(start, spawning, amounts, layers, i)
    {
      var spawnPartNum := if spawning[i] then amounts[i] else 0;
      flows := flows + [Flow(spawning[i], cursor, spawnPartNum, layers[i])];
      cursor := cursor + spawnPartNum;
      cursor := cursor % N;
      i := i + 1;
    }
  }

  // ---------------------------------------------------------------------------------------
  // Device side: which flow claims a particle id.

  /** `u32(x)` of a non-negative `f32` count: values past the `u32` range saturate. */
  function SatU32(x: nat): (r: nat)
    ensures r < U32_RANGE && (x < U32_RANGE ==> r == x)
  {
    if x < U32_RANGE then x else U32_RANGE - 1
  }

  /** The range end `b = a + numU`, wrapped in `u32`. */
  function RangeEnd(f: Flow): (b: nat)
    ensures b < U32_RANGE
  {
    U32(SatU32(f.spawnId) + SatU32(f.spawnNum))
  }

  /** `fixNum`: `N` when the range end wrapped below its start and the id lies below the end. */
  function FixNum(f: Flow, id: nat): nat {
    if SatU32(f.spawnId) > RangeEnd(f) && id < RangeEnd(f) then N else 0
  }

  /** `isSpawnParticleID` as written: `a <= idx + fixNum < b + fixNum` in `u32`. */
  predicate Claims(f: Flow, id: nat) {
    var fix := FixNum(f, id);
    SatU32(f.spawnId) <= U32(id + fix) < U32(RangeEnd(f) + fix)
  }

  /** `idu`: the id's offset from the range start in `u32`. */
  function Offset(f: Flow, id: nat): (r: nat)
    ensures r < U32_RANGE
  {
    U32(U32(id + FixNum(f, id)) - SatU32(f.spawnId))
  }

  /** The first flow from `k` on whose range holds `id`, or -1. */
  function FirstClaim(flows: seq<Flow>, id: nat, k: nat): (r: int)
    requires k <= |flows|
    ensures -1 <= r < |flows|
    ensures r >= 0 ==> k <= r && Claims(flows[r], id) && forall j :: k <= j < r ==> !Claims(flows[j], id)
    ensures r == -1 ==> forall j :: k <= j < |flows| ==> !Claims(flows[j], id)
    decreases |flows| - k
  {
    if k == |flows| then -1
    else if Claims(flows[k], id) then k
    else FirstClaim(flows, id, k + 1)
  }

  /** The flow lookup of `updatePart` (sketch.js:1303-1319): the loop over the flows breaks at
      the first one that claims the id; `idu` is the offset into that flow's range. */
  method FindFlow(flows: seq<Flow>, id: nat) returns (flowId: int, idu: nat)
    ensures flowId == FirstClaim(flows, id, 0)
    ensures flowId >= 0 ==> idu == Offset(flows[flowId], id)
  {
    flowId := -1;
    idu := 0;
    var i := 0;
    while i < |flows|
      invariant 0 <= i <= |flows|
      invariant FirstClaim(flows, id, 0) == FirstClaim(flows, id, i)
    {
      idu := Offset(flows[i], id);
      if Claims(flows[i], id) {
        flowId := i;
        return;
      }
      i := i + 1;
    }
  }

  /** A range that stays inside `u32` claims exactly the ids from its start up to its end, and
      `idu` counts from the start. */
  lemma ClaimsInRange(f: Flow, id: nat)
    requires id < N && f.spawnId + f.spawnNum < U32_RANGE
    ensures Claims(f, id) <==> f.spawnId <= id < f.spawnId + f.spawnNum
    ensures Claims(f, id) ==> Offset(f, id) == id - f.spawnId
  {
    var a, b := f.spawnId, f.spawnId + f.spawnNum;
    ModUnique(b, U32_RANGE, 0, b);
    assert RangeEnd(f) == b && FixNum(f, id) == 0;
    ModUnique(id, U32_RANGE, 0, id);
    if a <= id {
      ModUnique(id - a, U32_RANGE, 0, id - a);
    }
  }

  /** The direction of `ClaimsInRange` the lookup needs: an id inside the range is claimed. */
  lemma ClaimedInRange(f: Flow, id: nat)
    requires id < N && f.spawnId + f.spawnNum < U32_RANGE
    requires f.spawnId <= id < f.spawnId + f.spawnNum
    ensures Claims(f, id) && Offset(f, id) == id - f.spawnId
  {
    ClaimsInRange(f, id);
  }

  /** The wrap correction only ever fires when `a + numU` overflows `u32`. */
  lemma FixNeedsOverflow(f: Flow, id: nat)
    requires FixNum(f, id) != 0
    ensures SatU32(f.spawnId) + SatU32(f.spawnNum) >= U32_RANGE
  {
    var s := SatU32(f.spawnId) + SatU32(f.spawnNum);
    if s < U32_RANGE {
      ModUnique(s, U32_RANGE, 0, s);
    }
  }

  /** A range the host wrapped past `N` is not wrapped on the device: the ids it should take at
      the start of the buffer, `[0, a + num - N)`, are not claimed by it. */
  lemma WrappedIdsUnclaimed(f: Flow, id: nat)
    requires f.spawnId < N && f.spawnNum <= N < f.spawnId + f.spawnNum
    requires id < f.spawnId + f.spawnNum - N
    ensures !Claims(f, id)
  {
    ClaimsInRange(f, id);
  }

  /** No flow takes more than `N` ids in a frame that hands out at most `N`. */
  lemma NumAtMostN(spawning: seq<bool>, amounts: seq<nat>, j: nat)
    requires j < |spawning| == |amounts| && Taken(spawning, amounts, |spawning|) <= N
    ensures SpawnNum(spawning[j], amounts[j]) <= N
  {
    TakenMonotone(spawning, amounts, j + 1, |spawning|);
  }

  /** The lookup finds flow `i` when it claims the id and no earlier flow does. */
  lemma FirstClaimIs(flows: seq<Flow>, id: nat, i: nat)
    requires i < |flows| && Claims(flows[i], id)
    requires forall j :: 0 <= j < i ==> !Claims(flows[j], id)
    ensures FirstClaim(flows, id, 0) == i
  {
  }

  /** An id the host gave flow `i` without wrapping is not claimed by an earlier flow `j`. */
  lemma EarlierFlowMisses(start: nat, spawning: seq<bool>, amounts: seq<nat>, f: Flow, j: nat, i: nat, k: nat)
    requires start < N && j < i < |spawning| == |amounts|
    requires Taken(spawning, amounts, |spawning|) <= N
    requires k < SpawnNum(spawning[i], amounts[i]) && CursorAt(start, spawning, amounts, i) + k < N
    requires f.spawnId == CursorAt(start, spawning, amounts, j) && f.spawnNum == SpawnNum(spawning[j], amounts[j])
    ensures !Claims(f, CursorAt(start, spawning, amounts, i) + k)
  {
    var id := CursorAt(start, spawning, amounts, i) + k;
    NumAtMostN(spawning, amounts, j);
    ClaimsInRange(f, id);
    if f.spawnId <= id < f.spawnId + f.spawnNum {
      FlowsDisjoint(start, spawning, amounts, j, id - f.spawnId, i, k);
      ModUnique(id, N, 0, id);
      assert false;
    }
  }

  /** Host and device agree: while a frame hands out at most `N` ids, an id the host gave to
      flow `i` without wrapping past `N` is looked up on the device as flow `i`'s, at offset `k`
      into its range. */
  lemma DeviceFindsHostFlow(start: nat, spawning: seq<bool>, amounts: seq<nat>, layers: seq<int>, i: nat, k: nat)
    requires start < N && i < |spawning| == |amounts| == |layers|
    requires Taken(spawning, amounts, |spawning|) <= N
    requires k < SpawnNum(spawning[i], amounts[i]) && CursorAt(start, spawning, amounts, i) + k < N
    ensures FirstClaim(AssignedFlows(start, spawning, amounts, layers, |spawning|), CursorAt(start, spawning, amounts, i) + k, 0) == i
    ensures Offset(AssignedFlows(start, spawning, amounts, layers, |spawning|)[i], CursorAt(start, spawning, amounts, i) + k) == k
  {
    AssignedFlowsAt(start, spawning, amounts, layers, |spawning|);
    FindsFlowIn(start, spawning, amounts, AssignedFlows(start, spawning, amounts, layers, |spawning|), i, k);
  }

  /** `DeviceFindsHostFlow` for any flow list whose ranges are the host's. */
  lemma FindsFlowIn(start: nat, spawning: seq<bool>, amounts: seq<nat>, flows: seq<Flow>, i: nat, k: nat)
    requires start < N && i < |spawning| == |amounts| == |flows|
    requires Taken(spawning, amounts, |spawning|) <= N
    requires k < SpawnNum(spawning[i], amounts[i]) && CursorAt(start, spawning, amounts, i) + k < N
    requires forall j {:trigger flows[j]} :: 0 <= j < |flows| ==>
      flows[j].spawnId == CursorAt(start, spawning, amounts, j) && flows[j].spawnNum == SpawnNum(spawning[j], amounts[j])
    ensures FirstClaim(flows, CursorAt(start, spawning, amounts, i) + k, 0) == i
    ensures Offset(flows[i], CursorAt(start, spawning, amounts, i) + k) == k
  {
    NumAtMostN(spawning, amounts, i);
    ClaimedInRange(flows[i], CursorAt(start, spawning, amounts, i) + k);
    forall j | 0 <= j < i
      ensures !Claims(flows[j], CursorAt(start, spawning, amounts, i) + k)
    {
      EarlierFlowMisses(start, spawning, amounts, flows[j], j, i, k);
    }
    FirstClaimIs(flows, CursorAt(start, spawning, amounts, i) + k, i);
  }
}
