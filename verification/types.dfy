/**
 The records shared by the simulation: land-use cell types, seasons, grid
 cells, agents, the halo-padded sub-grid a rank owns, the process-grid
 partition and the run configuration, plus the halo-padded indexing macro.
 */
module Types {
  import CArith

  /** Amazonian land-use categories, in the order of their C enum values 0..4. */
  datatype CellType = Aldeia | Pesca | Coleta | Rocado | Interditada

  /** The C enum value of a cell type. */
  function TypeCode(t: CellType): int {
    match t
    case Aldeia => 0
    case Pesca => 1
    case Coleta => 2
    case Rocado => 3
    case Interditada => 4
  }

  /** `(CellType)n` for an integer already reduced modulo 5. */
  function TypeOfCode(n: int): (t: CellType)
    requires 0 <= n < 5
    ensures TypeCode(t) == n
  {
    if n == 0 then Aldeia
    else if n == 1 then Pesca
    else if n == 2 then Coleta
    else if n == 3 then Rocado
    else Interditada
  }

  /** The enum and its integer codes are in one-to-one correspondence. */
  lemma TypeCodeRoundTrip(t: CellType)
    ensures 0 <= TypeCode(t) < 5 && TypeOfCode(TypeCode(t)) == t
  {
  }

  datatype Season = Dry | Wet

  /** A grid cell; `accessible` holds the C int flag, which is only ever 0 or 1. */
  datatype Cell = Cell(kind: CellType, resource: real, maxResource: real, accessible: bool)

  /** The cell `calloc` produces: every field zero. */
  const ZeroCell: Cell := Cell(Aldeia, 0.0, 0.0, false)

  /** A mobile agent at global coordinates (gx, gy). */
  datatype Agent = Agent(id: int, gx: int, gy: int, energy: real, alive: bool)

  /**
   The local partition of one rank: a flat, row-major buffer of
   (local_h + 2) * (local_w + 2) cells with one halo cell on every side.
   */
  datatype SubGrid = SubGrid(
    localW: int, localH: int,
    offsetX: int, offsetY: int,
    haloW: int, haloH: int,
    cells: seq<Cell>)

  /** The shape invariant every sub-grid built by the simulation keeps. */
  predicate ValidSubGrid(sg: SubGrid) {
    && sg.localW >= 0 && sg.localH >= 0
    && sg.haloW == sg.localW + 2
    && sg.haloH == sg.localH + 2
    && |sg.cells| == sg.haloH * sg.haloW
  }

  /** Process-grid metadata: `px` columns by `py` rows of ranks, and the eight neighbours N, S, E, W, NE, NW, SE, SW. */
  datatype Partition = Partition(
    px: int, py: int,
    myRow: int, myCol: int,
    rank: int, size: int,
    neighbors: seq<int>)

  /** The run configuration filled from defaults and the command line. */
  datatype SimConfig = SimConfig(
    globalW: int, globalH: int,
    totalCycles: int, seasonLength: int,
    numAgents: int, maxWorkload: int,
    consumptionRate: real, energyGain: real, energyLoss: real, initialEnergy: real,
    seed: bv64,
    tuiEnabled: bool, tuiInterval: int)

  // ---------------------------------------------------------------------
  // Halo-padded indexing
  // ---------------------------------------------------------------------

  /** `CELL_AT(sg, r, c)`: row r and column c in halo coordinates. */
  function CellAt(sg: SubGrid, r: int, c: int): int {
    r * sg.haloW + c
  }

  /** (r, c) lies inside the padded buffer. */
  predicate InHalo(sg: SubGrid, r: int, c: int) {
    0 <= r < sg.haloH && 0 <= c < sg.haloW
  }

  /** (r, c) is an owned cell: the interior starts at (1, 1). */
  predicate IsInterior(sg: SubGrid, r: int, c: int) {
    1 <= r <= sg.localH && 1 <= c <= sg.localW
  }

  /** Row and column of a flat buffer index. */
  function RowOf(sg: SubGrid, i: int): int
    requires sg.haloW > 0
  {
    i / sg.haloW
  }

  function ColOf(sg: SubGrid, i: int): int
    requires sg.haloW > 0
  {
    i % sg.haloW
  }

  /** Every in-halo (r, c) addresses a slot of the buffer. */
  lemma CellAtBounds(sg: SubGrid, r: int, c: int)
    requires ValidSubGrid(sg) && InHalo(sg, r, c)
    ensures 0 <= CellAt(sg, r, c) < |sg.cells|
  {
    CArith.MulMono(r, sg.haloH - 1, sg.haloW);
    assert (sg.haloH - 1) * sg.haloW + sg.haloW == sg.haloH * sg.haloW;
  }

  /** The flat index determines the row and the column: `CELL_AT` has an inverse. */
  lemma CellAtRoundTrip(sg: SubGrid, r: int, c: int)
    requires ValidSubGrid(sg) && InHalo(sg, r, c)
    ensures RowOf(sg, CellAt(sg, r, c)) == r
    ensures ColOf(sg, CellAt(sg, r, c)) == c
  {
    CArith.DivUnique(r * sg.haloW + c, sg.haloW, r, c);
  }

  /** Distinct in-halo positions never share a slot. */
  lemma CellAtInjective(sg: SubGrid, r1: int, c1: int, r2: int, c2: int)
    requires ValidSubGrid(sg) && InHalo(sg, r1, c1) && InHalo(sg, r2, c2)
    requires CellAt(sg, r1, c1) == CellAt(sg, r2, c2)
    ensures r1 == r2 && c1 == c2
  {
    CellAtRoundTrip(sg, r1, c1);
    CellAtRoundTrip(sg, r2, c2);
  }

  /** Every slot of the buffer is `CELL_AT` of exactly the row and column it decodes to. */
  lemma SlotRoundTrip(sg: SubGrid, i: int)
    requires ValidSubGrid(sg) && 0 <= i < |sg.cells|
    ensures InHalo(sg, RowOf(sg, i), ColOf(sg, i))
    ensures CellAt(sg, RowOf(sg, i), ColOf(sg, i)) == i
  {
    var w := sg.haloW;
    if i / w >= sg.haloH {
      CArith.MulMono(sg.haloH, i / w, w);
      assert false;
    }
  }

  /** The halo ring is exactly rows 0 and local_h + 1 and columns 0 and local_w + 1. */
  lemma HaloRing(sg: SubGrid, r: int, c: int)
    requires ValidSubGrid(sg) && InHalo(sg, r, c)
    ensures !IsInterior(sg, r, c) <==>
              (r == 0 || r == sg.localH + 1 || c == 0 || c == sg.localW + 1)
  {
  }

  /** The cell at halo position (r, c). */
  function CellOf(sg: SubGrid, r: int, c: int): Cell
    requires ValidSubGrid(sg) && InHalo(sg, r, c)
  {
    CellAtBounds(sg, r, c);
    sg.cells[CellAt(sg, r, c)]
  }

  /** `cells` with one slot replaced; the shape is unchanged. */
  function SetCell(sg: SubGrid, r: int, c: int, cell: Cell): (sg': SubGrid)
    requires ValidSubGrid(sg) && InHalo(sg, r, c)
    ensures ValidSubGrid(sg')
  {
    CellAtBounds(sg, r, c);
    sg.(cells := sg.cells[CellAt(sg, r, c) := cell])
  }

  /** `SetCell` writes exactly position (r0, c0): every other position keeps its cell. */
  lemma SetCellFrame(sg: SubGrid, r0: int, c0: int, cell: Cell)
    requires ValidSubGrid(sg) && InHalo(sg, r0, c0)
    ensures CellOf(SetCell(sg, r0, c0, cell), r0, c0) == cell
    ensures forall r, c :: InHalo(sg, r, c) && (r, c) != (r0, c0) ==>
              CellOf(SetCell(sg, r0, c0, cell), r, c) == CellOf(sg, r, c)
  {
    var i0 := CellAt(sg, r0, c0);
    CellAtBounds(sg, r0, c0);
    var sg' := SetCell(sg, r0, c0, cell);
    assert sg' == sg.(cells := sg.cells[i0 := cell]);
    assert CellAt(sg', r0, c0) == i0;
    forall r, c | InHalo(sg, r, c) && (r, c) != (r0, c0)
      ensures CellOf(sg', r, c) == CellOf(sg, r, c)
    {
      CellAtBounds(sg, r, c);
      if CellAt(sg, r, c) == i0 {
        CellAtInjective(sg, r, c, r0, c0);
      }
      assert CellAt(sg', r, c) == CellAt(sg, r, c);
    }
  }
}
