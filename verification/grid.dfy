/**
 The sub-grid a rank owns: its creation from the partition, the
 deterministic per-cell initialisation, and the per-cycle regeneration.
 */
module Grid {
  import opened Types
  import Partitioning
  import Rng
  import Seasons

  /** `max_resources`: the resource capacity of each cell type. */
  function MaxResource(t: CellType): (m: real)
    ensures 0.0 <= m <= 1.0
    ensures m == 0.0 <==> t == Interditada
  {
    match t
    case Aldeia => 0.5
    case Pesca => 1.0
    case Coleta => 0.8
    case Rocado => 0.9
    case Interditada => 0.0
  }

  /**
   `subgrid_create`: local dimensions and offsets from the partition, one
   halo cell on every side, and a zero-filled buffer of halo_h * halo_w cells.
   */
  function SubgridCreate(p: Partition, globalW: int, globalH: int): (sg: SubGrid)
    requires Partitioning.ValidPartition(p) && globalW >= 0 && globalH >= 0
    ensures ValidSubGrid(sg) && Partitioning.PlacedBy(sg, p, globalW, globalH)
    ensures sg.haloW == sg.localW + 2 && sg.haloH == sg.localH + 2
    ensures 0 <= sg.offsetX && sg.offsetX + sg.localW <= globalW
    ensures 0 <= sg.offsetY && sg.offsetY + sg.localH <= globalH
    ensures |sg.cells| == sg.haloH * sg.haloW
    ensures forall i :: 0 <= i < |sg.cells| ==> sg.cells[i] == ZeroCell
  {
    var d := Partitioning.SubgridDims(p, globalW, globalH);
    var haloW, haloH := d.localW + 2, d.localH + 2;
    SubGrid(d.localW, d.localH, d.offsetX, d.offsetY, haloW, haloH, seq(haloH * haloW, _ => ZeroCell))
  }

  /** The cell type drawn for global cell (gx, gy): the first draw of its own generator, modulo 5. */
  function CellTypeAt(seed: bv64, gx: int, gy: int): CellType {
    var rng := Rng.Seed(Rng.CellSeed(seed, gx, gy));
    TypeOfCode((Rng.Next(rng) as int) % 5)
  }

  /** The initial contents of global cell (gx, gy). */
  function InitialCell(seed: bv64, gx: int, gy: int): (c: Cell)
    ensures c.resource == 0.0 && c.accessible
    ensures c.maxResource == MaxResource(c.kind)
  {
    var t := CellTypeAt(seed, gx, gy);
    Cell(t, 0.0, MaxResource(t), true)
  }

  /** Global x of halo column c and global y of halo row r. */
  function GlobalX(sg: SubGrid, c: int): int { sg.offsetX + (c - 1) }
  function GlobalY(sg: SubGrid, r: int): int { sg.offsetY + (r - 1) }

  /** All in-halo positions decode back from their flat index. */
  lemma AllRoundTrip(sg: SubGrid)
    requires ValidSubGrid(sg)
    ensures forall r, c :: InHalo(sg, r, c) ==>
              0 <= CellAt(sg, r, c) < |sg.cells| &&
              RowOf(sg, CellAt(sg, r, c)) == r && ColOf(sg, CellAt(sg, r, c)) == c
  {
    forall r, c | InHalo(sg, r, c)
      ensures 0 <= CellAt(sg, r, c) < |sg.cells|
      ensures RowOf(sg, CellAt(sg, r, c)) == r && ColOf(sg, CellAt(sg, r, c)) == c
    {
      CellAtBounds(sg, r, c);
      CellAtRoundTrip(sg, r, c);
    }
  }

  /** The buffer with every interior slot replaced by `f` of its halo row and column. */
  function MapInterior(sg: SubGrid, f: (int, int, Cell) -> Cell): (sg': SubGrid)
    requires ValidSubGrid(sg)
    ensures ValidSubGrid(sg')
    ensures sg'.localW == sg.localW && sg'.localH == sg.localH
    ensures sg'.offsetX == sg.offsetX && sg'.offsetY == sg.offsetY
    ensures sg'.haloW == sg.haloW && sg'.haloH == sg.haloH
    ensures forall r, c :: IsInterior(sg, r, c) ==> CellOf(sg', r, c) == f(r, c, CellOf(sg, r, c))
    ensures forall r, c :: InHalo(sg, r, c) && !IsInterior(sg, r, c) ==> CellOf(sg', r, c) == CellOf(sg, r, c)
  {
    AllRoundTrip(sg);
    var cells := seq(|sg.cells|, i requires 0 <= i < |sg.cells| =>
      var r, c := RowOf(sg, i), ColOf(sg, i);
      if IsInterior(sg, r, c) then f(r, c, sg.cells[i]) else sg.cells[i]);
    sg.(cells := cells)
  }

  /**
   `subgrid_init`: every interior cell gets the contents drawn for its
   global coordinates; halo cells are left as they are.
   */
  function SubgridInit(sg: SubGrid, seed: bv64): (sg': SubGrid)
    requires ValidSubGrid(sg)
    ensures ValidSubGrid(sg')
    ensures sg'.localW == sg.localW && sg'.localH == sg.localH
    ensures sg'.offsetX == sg.offsetX && sg'.offsetY == sg.offsetY
    ensures forall r, c :: IsInterior(sg, r, c) ==>
              CellOf(sg', r, c) == InitialCell(seed, GlobalX(sg, c), GlobalY(sg, r))
    ensures forall r, c :: InHalo(sg, r, c) && !IsInterior(sg, r, c) ==> CellOf(sg', r, c) == CellOf(sg, r, c)
  {
    MapInterior(sg, (r, c, cell) => InitialCell(seed, GlobalX(sg, c), GlobalY(sg, r)))
  }

  /** The cell holding global (gx, gy) in a sub-grid that owns it. */
  function GlobalCell(sg: SubGrid, gx: int, gy: int): Cell
    requires ValidSubGrid(sg) && Partitioning.OwnsGlobal(sg, gx, gy)
  {
    CellOf(sg, gy - sg.offsetY + 1, gx - sg.offsetX + 1)
  }

  /** An owned global cell holds exactly the contents drawn for its coordinates. */
  lemma InitAtGlobal(sg: SubGrid, seed: bv64, gx: int, gy: int)
    requires ValidSubGrid(sg) && Partitioning.OwnsGlobal(sg, gx, gy)
    ensures GlobalCell(SubgridInit(sg, seed), gx, gy) == InitialCell(seed, gx, gy)
  {
    var r, c := gy - sg.offsetY + 1, gx - sg.offsetX + 1;
    assert IsInterior(sg, r, c) && gx == GlobalX(sg, c) && gy == GlobalY(sg, r);
    InitInterior(sg, seed, r, c, gx, gy);
  }

  lemma InitInterior(sg: SubGrid, seed: bv64, r: int, c: int, gx: int, gy: int)
    requires ValidSubGrid(sg) && IsInterior(sg, r, c)
    requires gx == GlobalX(sg, c) && gy == GlobalY(sg, r)
    ensures var sg' := SubgridInit(sg, seed);
            && ValidSubGrid(sg') && IsInterior(sg', r, c)
            && CellOf(sg', r, c) == InitialCell(seed, gx, gy)
  {
  }

  /**
   A cell's initial contents depend only on the seed and its global
   coordinates: two ranks of any two decompositions that both own (gx, gy)
   initialise it identically.
   */
  lemma DecompositionIndependent(sg1: SubGrid, sg2: SubGrid, seed: bv64, gx: int, gy: int)
    requires ValidSubGrid(sg1) && ValidSubGrid(sg2)
    requires Partitioning.OwnsGlobal(sg1, gx, gy) && Partitioning.OwnsGlobal(sg2, gx, gy)
    ensures GlobalCell(SubgridInit(sg1, seed), gx, gy) == GlobalCell(SubgridInit(sg2, seed), gx, gy)
  {
    InitAtGlobal(sg1, seed, gx, gy);
    InitAtGlobal(sg2, seed, gx, gy);
  }

  /**
   One cell of `subgrid_update`: regain `regen * (max - resource)`, clamp
   below at 0 and then above at the maximum, and take the season's
   accessibility.
   */
  function UpdateCell(cell: Cell, season: Season): (c': Cell)
    ensures c'.kind == cell.kind && c'.maxResource == cell.maxResource
    ensures c'.accessible == Seasons.Accessible(cell.kind, season)
    ensures cell.maxResource >= 0.0 ==> 0.0 <= c'.resource <= c'.maxResource
    ensures 0.0 <= cell.resource <= cell.maxResource ==>
              cell.resource <= c'.resource
              && c'.resource == cell.resource + Seasons.RegenRate(cell.kind, season) * (cell.maxResource - cell.resource)
  {
    var regen := Seasons.RegenRate(cell.kind, season);
    var grown := cell.resource + regen * (cell.maxResource - cell.resource);
    var floored := if grown < 0.0 then 0.0 else grown;
    var capped := if floored > cell.maxResource then cell.maxResource else floored;
    cell.(resource := capped, accessible := Seasons.Accessible(cell.kind, season))
  }

  /**
   `subgrid_update` (sequential semantics): every interior cell is updated
   on its own; halo cells, types and capacities do not change.
   */
  function SubgridUpdate(sg: SubGrid, season: Season): (sg': SubGrid)
    requires ValidSubGrid(sg)
    ensures ValidSubGrid(sg')
    ensures sg'.localW == sg.localW && sg'.localH == sg.localH
    ensures sg'.offsetX == sg.offsetX && sg'.offsetY == sg.offsetY
    ensures forall r, c :: IsInterior(sg, r, c) ==>
              var old_, new_ := CellOf(sg, r, c), CellOf(sg', r, c);
              && new_.kind == old_.kind && new_.maxResource == old_.maxResource
              && new_.accessible == Seasons.Accessible(old_.kind, season)
              && (old_.maxResource >= 0.0 ==> 0.0 <= new_.resource <= new_.maxResource)
    ensures forall r, c :: InHalo(sg, r, c) && !IsInterior(sg, r, c) ==> CellOf(sg', r, c) == CellOf(sg, r, c)
  {
    MapInterior(sg, (r, c, cell) => UpdateCell(cell, season))
  }

  /** Cells whose resource lies in [0, max] keep it there through any number of updates. */
  lemma {:induction false} UpdateKeepsBounds(cell: Cell, seasons: seq<Season>)
    requires 0.0 <= cell.resource <= cell.maxResource
    decreases |seasons|
    ensures var c' := UpdateAll(cell, seasons);
            0.0 <= cell.resource <= c'.resource <= c'.maxResource == cell.maxResource
  {
    if |seasons| > 0 {
      UpdateKeepsBounds(UpdateCell(cell, seasons[0]), seasons[1..]);
    }
  }

  /** A cell after one update per season in `seasons`, in order. */
  function UpdateAll(cell: Cell, seasons: seq<Season>): Cell
    decreases |seasons|
  {
    if |seasons| == 0 then cell else UpdateAll(UpdateCell(cell, seasons[0]), seasons[1..])
  }
}
