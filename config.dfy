/** The fixed sizes of the simulation (sketch.js:322-336) and the 32-bit unsigned arithmetic of
    the compute shader. */
module Config {
  import opened Sums

  const GROUP_SIZE: nat := 256
  const GROUP_COUNT: nat := 1024
  /** The particle capacity: one invocation per particle. */
  const N: nat := GROUP_SIZE * GROUP_COUNT
  const GRID_SIZE_X: nat := 256
  const GRID_SIZE_Y: nat := 256
  const MAX_SCAN_SIZE: nat := 256
  const MAX_LAYERS: nat := 50

  const U32_RANGE: nat := 0x1_0000_0000
  /** The largest `u32`, `0xffffffffu`. */
  const U32_MAX: nat := U32_RANGE - 1
  /** The hash of a dead particle, `0xffffffffu`: never a cell index. */
  const HASH_NONE: nat := 0xffff_ffff

  /** A value as the shader's `u32` sees it: wrapped into `[0, 2^32)`. On an `i32` this is the
      bit reinterpretation `u32(x)` / `vec2u(v)` performs. */
  function U32(x: int): (r: nat)
    ensures r < U32_RANGE
  {
    x % U32_RANGE
  }

  /** `LAYER_NUM`: one grid layer per flow, at most fifty. */
  function LayerNum(flowNum: nat): nat {
    Min(MAX_LAYERS, flowNum)
  }

  /** `GRID_SIZE`: cells of all layers together. */
  function GridSize(layers: nat): nat {
    GRID_SIZE_X * GRID_SIZE_Y * layers
  }

  /** `FSCAN_CHUNK_SIZE`: cells per first-level workgroup. */
  function FScanChunkSize(layers: nat): nat {
    Min(GridSize(layers), MAX_SCAN_SIZE)
  }

  /** `FSCAN_CHUNK_NUM`: first-level workgroups, the length of `aArray1`. */
  function FScanChunkNum(layers: nat): nat
    requires layers > 0
  {
    CeilDiv(GridSize(layers), FScanChunkSize(layers))
  }

  /** `SSCAN_CHUNK_SIZE`: chunk totals per second-level workgroup. */
  function SScanChunkSize(layers: nat): nat
    requires layers > 0
  {
    Min(FScanChunkNum(layers), MAX_SCAN_SIZE)
  }

  /** `SSCAN_CHUNK_NUM`: second-level workgroups, the length of `aArray2` and `aArray3`. */
  function SScanChunkNum(layers: nat): nat
    requires layers > 0 && SScanChunkSize(layers) > 0
  {
    CeilDiv(FScanChunkNum(layers), SScanChunkSize(layers))
  }

  /** For every layer count the source allows, both scan levels use 256-wide chunks, there is
      one first-level chunk per 256 cells and one second-level chunk per layer, and the dead
      sentinel lies beyond every cell index. */
  lemma SourceSizes(layers: nat)
    requires 1 <= layers <= MAX_LAYERS
    ensures GridSize(layers) == 65536 * layers < HASH_NONE
    ensures FScanChunkSize(layers) == 256
    ensures FScanChunkNum(layers) == 256 * layers
    ensures SScanChunkSize(layers) == 256
    ensures SScanChunkNum(layers) == layers
  {
    assert FScanChunkSize(layers) == 256;
    assert (65536 * layers + 255) / 256 == 256 * layers;
    assert (256 * layers + 255) / 256 == layers;
  }
}
