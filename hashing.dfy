/** Spatial hashing: the cell index of a grid coordinate (`getCellInd`, `getHash`,
    sketch.js:1377-1385) and the hash `culcHash` stores for each particle (sketch.js:901-910).
    Grid coordinates come from `vec2u(pPos * inv_h)`, a floating-point conversion this model
    takes as given: a particle carries its integer cell coordinates. */
module Hashing {
  import opened Sums
  import opened Config

  /** `getCellInd`: `x + y * GRID_SIZE_X + z * GRID_SIZE_X * GRID_SIZE_Y` in `u32`. */
  function GetCellInd(x: nat, y: nat, z: nat): nat {
    U32(x + y * GRID_SIZE_X + z * (GRID_SIZE_X * GRID_SIZE_Y))
  }

  /** `getHash`: the cell index reduced modulo the grid size. Whatever the coordinates, also
      neighbour coordinates that wrapped below zero, the hash names a cell. */
  function GetHash(x: nat, y: nat, z: nat, gridSize: nat): (h: nat)
    requires gridSize > 0
    ensures h < gridSize
  {
    GetCellInd(x, y, z) % gridSize
  }

  /** The grid coordinate a cell index stands for, inverting `GetCellInd` inside the grid. */
  function CellCoords(c: nat): (nat, nat, nat) {
    (c % GRID_SIZE_X, (c / GRID_SIZE_X) % GRID_SIZE_Y, c / (GRID_SIZE_X * GRID_SIZE_Y))
  }

  /** Inside the grid the hash is the plain cell index, one cell per coordinate: coordinates
      and cell indices correspond one to one. */
  lemma HashInsideGrid(x: nat, y: nat, z: nat, layers: nat)
    requires x < GRID_SIZE_X && y < GRID_SIZE_Y && z < layers <= MAX_LAYERS
    ensures GetCellInd(x, y, z) == x + y * GRID_SIZE_X + z * (GRID_SIZE_X * GRID_SIZE_Y) < GridSize(layers)
    ensures GetHash(x, y, z, GridSize(layers)) == GetCellInd(x, y, z)
    ensures CellCoords(GetCellInd(x, y, z)) == (x, y, z)
  {
    var c := x + y * 256 + z * 65536;
    assert c < 65536 * layers;
    ModUnique(c, U32_RANGE, 0, c);
    ModUnique(c, GridSize(layers), 0, c);
    ModUnique(c, 256, y + z * 256, x);
    ModUnique(y + z * 256, 256, z, y);
    ModUnique(c, 65536, z, x + y * 256);
  }

  /** Every cell of the grid is the index of the coordinate `CellCoords` gives it, so a pass
      dispatched over `GRID_SIZE_X x GRID_SIZE_Y x LAYER_NUM` visits each cell exactly once. */
  lemma CellCoordsRoundTrip(c: nat, layers: nat)
    requires c < GridSize(layers) && layers <= MAX_LAYERS
    ensures CellCoords(c).0 < GRID_SIZE_X && CellCoords(c).1 < GRID_SIZE_Y && CellCoords(c).2 < layers
    ensures GetCellInd(CellCoords(c).0, CellCoords(c).1, CellCoords(c).2) == c
  {
    var x, y, z := c % 256, (c / 256) % 256, c / 65536;
    var q := c / 256;
    ModUnique(q, 256, q / 256, y);
    assert c == x + y * 256 + (q / 256) * 65536;
    ModUnique(c, 65536, q / 256, x + y * 256);
    ModUnique(c, U32_RANGE, 0, c);
  }

  /** The hash `culcHash` stores: the sentinel for a dead particle (`mass == 0`), the cell of its
      predicted position otherwise. `layer` is `cellPos.z`, an `i32` read as `u32`. */
  function ParticleHash(mass: real, cellX: nat, cellY: nat, layer: int, gridSize: nat): (h: nat)
    requires 0 < gridSize <= HASH_NONE
    ensures h == HASH_NONE <==> mass == 0.0
    ensures mass != 0.0 ==> h < gridSize
  {
    if mass != 0.0 then GetHash(cellX, cellY, U32(layer), gridSize) else HASH_NONE
  }

  /** The 3 x 3 stencil of neighbour offsets `nextCells` (sketch.js:768-772). */
  const NEXT_CELLS: seq<(int, int)> :=
    [(-1, -1), (0, -1), (1, -1), (-1, 0), (0, 0), (1, 0), (-1, 1), (0, 1), (1, 1)]

  /** The cell the neighbour loops read for stencil entry `k` around cell `(cx, cy)` of layer
      `layer` (sketch.js:1100-1101): coordinates below zero wrap in `u32` and still hash into
      the grid. */
  function NeighbourHash(cx: int, cy: int, layer: int, k: nat, gridSize: nat): (h: nat)
    requires k < 9 && gridSize > 0
    ensures h < gridSize
  {
    GetHash(U32(cx + NEXT_CELLS[k].0), U32(cy + NEXT_CELLS[k].1), U32(layer), gridSize)
  }

  /** A neighbour inside the grid is looked up in its own cell. */
  lemma NeighbourInside(cx: int, cy: int, layer: nat, k: nat, layers: nat)
    requires k < 9 && layer < layers <= MAX_LAYERS
    requires 0 <= cx + NEXT_CELLS[k].0 < GRID_SIZE_X && 0 <= cy + NEXT_CELLS[k].1 < GRID_SIZE_Y
    ensures NeighbourHash(cx, cy, layer, k, GridSize(layers))
            == GetCellInd(cx + NEXT_CELLS[k].0, cy + NEXT_CELLS[k].1, layer)
  {
    var x, y := cx + NEXT_CELLS[k].0, cy + NEXT_CELLS[k].1;
    ModUnique(x, U32_RANGE, 0, x);
    ModUnique(y, U32_RANGE, 0, y);
    ModUnique(layer, U32_RANGE, 0, layer);
    HashInsideGrid(x, y, layer, layers);
  }

  /** The left neighbour of a cell in column 0 is not skipped: `u32(-1)` wraps, and the lookup
      reads the last cell of the row below (of the previous layer for row 0 of a layer above 0). */
  lemma NeighbourWrapsLeft(cy: int, layer: nat, k: nat, layers: nat)
    requires k < 9 && NEXT_CELLS[k].0 == -1 && layer < layers <= MAX_LAYERS
    requires 0 <= cy + NEXT_CELLS[k].1 < GRID_SIZE_Y
    requires cy + NEXT_CELLS[k].1 > 0 || layer > 0
    ensures NeighbourHash(0, cy, layer, k, GridSize(layers))
            == GetCellInd(0, cy + NEXT_CELLS[k].1, layer) - 1
  {
    var y := cy + NEXT_CELLS[k].1;
    var c := y * 256 + layer * 65536;
    HashInsideGrid(0, y, layer, layers);
    ModUnique(y, U32_RANGE, 0, y);
    ModUnique(layer, U32_RANGE, 0, layer);
    ModUnique(-1, U32_RANGE, -1, U32_RANGE - 1);
    ModUnique(U32_RANGE - 1 + c, U32_RANGE, 1, c - 1);
    ModUnique(c - 1, GridSize(layers), 0, c - 1);
  }
}
