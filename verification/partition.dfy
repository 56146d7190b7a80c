/**
 Domain decomposition: the rank count is factored into a `px` by `py`
 process grid, the global grid is cut into blocks along each axis (the
 last column and row absorb the remainder), and global coordinates are
 mapped to the rank that owns them.
 */
module Partitioning {
  import opened Types
  import CArith

  /** The null neighbour; the serial build writes -1 for it. */
  const ProcNull: int := -1

  /** Which build of `partition_init` / `partition_rank_for_global` is meant. */
  datatype Build = Serial | Mpi

  // ---------------------------------------------------------------------
  // Factorisation of the rank count
  // ---------------------------------------------------------------------

  /** a * b == size with both factors positive. */
  predicate DivisorPair(size: int, a: int, b: int) {
    a >= 1 && b >= 1 && a * b == size
  }

  /** The spread of the factor pair (a, size / a). */
  function Gap(size: int, a: int): nat
    requires a >= 1
  {
    CArith.Abs(a - size / a)
  }

  predicate Divides(a: int, size: int)
    requires a >= 1
  {
    size % a == 0
  }

  lemma ExactQuotient(a: int, b: int)
    requires a >= 1 && b >= 1
    ensures (a * b) % a == 0 && (a * b) / a == b
  {
    CArith.DivUnique(a * b, a, b, 0);
  }

  /** The smaller factor of any divisor pair is at most the square root. */
  lemma SmallerFactorBelowRoot(size: int, a: int, b: int, i: int)
    requires DivisorPair(size, a, b) && a <= b && i >= 1 && i * i > size
    ensures a < i
  {
    if a >= i {
      CArith.MulMono(i, a, i);
      CArith.MulMono(i, a, a);
      CArith.MulMono(a, b, a);
      assert false;
    }
  }

  /**
   The search of `partition_init`: for every i with i * i <= size that
   divides size, the pair (i, size / i) replaces the best pair when its
   spread is strictly smaller. The result is the divisor pair of least
   spread, smaller factor first.
   */
  method BestFactors(size: int) returns (bestPx: int, bestPy: int)
    requires size >= 1
    ensures DivisorPair(size, bestPx, bestPy) && bestPx <= bestPy
    ensures forall a, b :: DivisorPair(size, a, b) ==> CArith.Abs(a - b) >= bestPy - bestPx
  {
    bestPx, bestPy := 1, size;
    var i := 1;
    while i * i <= size
      invariant 1 <= i && (i - 1) * (i - 1) <= size
      invariant DivisorPair(size, bestPx, bestPy) && bestPx <= bestPy
      invariant forall a :: 1 <= a < i && Divides(a, size) ==> Gap(size, a) >= bestPy - bestPx
      decreases size - (i - 1) * (i - 1)
    {
      if size % i == 0 {
        var a := i;
        var b := size / i;
        FactorBelowCofactor(size, i);
        if CArith.Abs(a - b) < CArith.Abs(bestPx - bestPy) {
          bestPx, bestPy := a, b;
        }
      }
      SquareGrows(i);
      i := i + 1;
    }
    NoSmallerSpread(size, i, bestPx, bestPy);
  }

  lemma SquareGrows(i: int)
    requires i >= 1
    ensures (i - 1) * (i - 1) < i * i
  {
  }

  /** A divisor i with i * i <= size is paired with a cofactor at least as large. */
  lemma FactorBelowCofactor(size: int, i: int)
    requires size >= 1 && i >= 1 && i * i <= size && size % i == 0
    ensures i * (size / i) == size && i <= size / i
  {
    var b := size / i;
    assert i * b == size;
    if b < i {
      CArith.MulMono(b, i - 1, i);
      assert false;
    }
  }

  /** Once i * i exceeds size, the spread of every divisor pair has been seen. */
  lemma NoSmallerSpread(size: int, i: int, bestPx: int, bestPy: int)
    requires size >= 1 && i >= 1 && i * i > size
    requires forall a :: 1 <= a < i && Divides(a, size) ==> Gap(size, a) >= bestPy - bestPx
    ensures forall a, b :: DivisorPair(size, a, b) ==> CArith.Abs(a - b) >= bestPy - bestPx
  {
    forall a, b | DivisorPair(size, a, b)
      ensures CArith.Abs(a - b) >= bestPy - bestPx
    {
      var m, n := if a <= b then a else b, if a <= b then b else a;
      assert DivisorPair(size, m, n);
      SmallerFactorBelowRoot(size, m, n, i);
      ExactQuotient(m, n);
      assert Divides(m, size) && size / m == n;
      assert Gap(size, m) == CArith.Abs(a - b);
    }
  }

  /**
   The orientation step of `partition_init`: the larger factor goes to the
   axis with more cells (px when global_w >= global_h, py otherwise).
   */
  method ProcessGrid(size: int, globalW: int, globalH: int) returns (px: int, py: int)
    requires size >= 1
    ensures DivisorPair(size, px, py)
    ensures globalW >= globalH ==> px >= py
    ensures globalW < globalH ==> px <= py
    ensures forall a, b :: DivisorPair(size, a, b) ==> CArith.Abs(a - b) >= CArith.Abs(px - py)
  {
    var bestPx, bestPy := BestFactors(size);
    if globalW >= globalH {
      px, py := bestPy, bestPx;
    } else {
      px, py := bestPx, bestPy;
    }
  }

  // ---------------------------------------------------------------------
  // The Cartesian process grid and its neighbours
  // ---------------------------------------------------------------------

  /** The shape invariant of a partition built by `partition_init`. */
  predicate ValidPartition(p: Partition) {
    && p.px >= 1 && p.py >= 1
    && p.size == p.px * p.py
    && 0 <= p.myRow < p.py && 0 <= p.myCol < p.px
    && 0 <= p.rank < p.size
    && |p.neighbors| == 8
  }

  /** Rank of grid position (row, col): Cartesian ranks are numbered row-major. */
  function CartRank(px: int, row: int, col: int): int {
    row * px + col
  }

  /** Row offsets and column offsets of the neighbours N, S, E, W, NE, NW, SE, SW. */
  function NeighborRowOffset(k: int): int
    requires 0 <= k < 8
  {
    [-1, 1, 0, 0, -1, -1, 1, 1][k]
  }

  function NeighborColOffset(k: int): int
    requires 0 <= k < 8
  {
    [0, 0, 1, -1, 1, -1, 1, -1][k]
  }

  /** Neighbour k of grid position (row, col) in a non-periodic px by py grid. */
  function NeighborAt(px: int, py: int, row: int, col: int, k: int): int
    requires 0 <= k < 8
  {
    var r, c := row + NeighborRowOffset(k), col + NeighborColOffset(k);
    if 0 <= r < py && 0 <= c < px then CartRank(px, r, c) else ProcNull
  }

  /** The direction that points back: N/S, E/W, NE/SW and NW/SE. */
  function Opposite(k: int): (o: int)
    requires 0 <= k < 8
    ensures 0 <= o < 8
    ensures NeighborRowOffset(o) == -NeighborRowOffset(k)
    ensures NeighborColOffset(o) == -NeighborColOffset(k)
  {
    [1, 0, 3, 2, 7, 6, 5, 4][k]
  }

  lemma CartRankInjective(px: int, py: int, r1: int, c1: int, r2: int, c2: int)
    requires px >= 1 && 0 <= r1 < py && 0 <= r2 < py && 0 <= c1 < px && 0 <= c2 < px
    requires CartRank(px, r1, c1) == CartRank(px, r2, c2)
    ensures r1 == r2 && c1 == c2
  {
    if r1 < r2 {
      CArith.MulMono(r1 + 1, r2, px);
      assert false;
    } else if r2 < r1 {
      CArith.MulMono(r2 + 1, r1, px);
      assert false;
    }
  }

  /** Neighbour relations are symmetric: if B is A's neighbour in direction k, A is B's in the opposite direction. */
  lemma NeighborSymmetric(px: int, py: int, row: int, col: int, k: int)
    requires px >= 1 && py >= 1 && 0 <= row < py && 0 <= col < px && 0 <= k < 8
    requires NeighborAt(px, py, row, col, k) != ProcNull
    ensures var r, c := row + NeighborRowOffset(k), col + NeighborColOffset(k);
            NeighborAt(px, py, r, c, Opposite(k)) == CartRank(px, row, col)
  {
  }

  /**
   `partition_init` in the MPI build. `cartRank` is the rank the Cartesian
   communicator assigns to this process; its coordinates follow the
   row-major numbering, the four cardinal neighbours come from the shifts
   and the four diagonals from explicit bounds checks.
   */
  method PartitionInit(size: int, cartRank: int, globalW: int, globalH: int) returns (p: Partition)
    requires size >= 1 && 0 <= cartRank < size
    ensures ValidPartition(p) && p.size == size && p.rank == cartRank
    ensures globalW >= globalH ==> p.px >= p.py
    ensures globalW < globalH ==> p.px <= p.py
    ensures forall a, b :: DivisorPair(size, a, b) ==> CArith.Abs(a - b) >= CArith.Abs(p.px - p.py)
    ensures CartRank(p.px, p.myRow, p.myCol) == p.rank
    ensures forall k :: 0 <= k < 8 ==> p.neighbors[k] == NeighborAt(p.px, p.py, p.myRow, p.myCol, k)
  {
    var px, py := ProcessGrid(size, globalW, globalH);
    var row, col := cartRank / px, cartRank % px;
    RowMajorCoords(px, py, cartRank);
    p := Partition(px, py, row, col, cartRank, size, CartNeighbors(px, py, row, col));
  }

  /** Row-major coordinates of a rank lie in the grid and name the rank back. */
  lemma RowMajorCoords(px: int, py: int, rank: int)
    requires px >= 1 && py >= 1 && 0 <= rank < px * py
    ensures 0 <= rank / px < py && 0 <= rank % px < px
    ensures CartRank(px, rank / px, rank % px) == rank
  {
    if rank / px >= py {
      CArith.MulMono(py, rank / px, px);
      assert false;
    }
  }

  /**
   The neighbour list as `partition_init` fills it: north and south from the
   row shift, west and east from the column shift, then the diagonals NE, NW,
   SE, SW each from its own bounds check.
   */
  function CartNeighbors(px: int, py: int, row: int, col: int): (nb: seq<int>)
    requires 0 <= row < py && 0 <= col < px
    ensures |nb| == 8
    ensures forall k :: 0 <= k < 8 ==> nb[k] == NeighborAt(px, py, row, col, k)
  {
    var north := if row - 1 >= 0 then CartRank(px, row - 1, col) else ProcNull;
    var south := if row + 1 < py then CartRank(px, row + 1, col) else ProcNull;
    var east := if col + 1 < px then CartRank(px, row, col + 1) else ProcNull;
    var west := if col - 1 >= 0 then CartRank(px, row, col - 1) else ProcNull;
    var ne := if row - 1 >= 0 && col + 1 < px then CartRank(px, row - 1, col + 1) else ProcNull;
    var nw := if row - 1 >= 0 && col - 1 >= 0 then CartRank(px, row - 1, col - 1) else ProcNull;
    var se := if row + 1 < py && col + 1 < px then CartRank(px, row + 1, col + 1) else ProcNull;
    var sw := if row + 1 < py && col - 1 >= 0 then CartRank(px, row + 1, col - 1) else ProcNull;
    [north, south, east, west, ne, nw, se, sw]
  }

  /** Every grid position has a rank in [0, px * py). */
  lemma CartRankInRange(px: int, py: int, row: int, col: int)
    requires 0 <= row < py && 0 <= col < px
    ensures 0 <= CartRank(px, row, col) < px * py
  {
    CArith.MulMono(row, py - 1, px);
    CArith.MulMono(0, row, px);
  }

  /**
   `partition_init` in the serial build: size 1, rank 0, the factor search
   runs on 1, and the fallback then fixes a 1 by 1 grid with no neighbours.
   */
  method PartitionInitSerial(globalW: int, globalH: int) returns (p: Partition)
    ensures ValidPartition(p)
    ensures p.px == 1 && p.py == 1 && p.size == 1 && p.rank == 0
    ensures p.myRow == 0 && p.myCol == 0
    ensures forall k :: 0 <= k < 8 ==> p.neighbors[k] == ProcNull
    ensures forall k :: 0 <= k < 8 ==> p.neighbors[k] == NeighborAt(p.px, p.py, p.myRow, p.myCol, k)
  {
    var size, rank := 1, 0;
    var px, py := ProcessGrid(size, globalW, globalH);
    px, py := 1, 1;
    p := Partition(px, py, 0, 0, rank, size, seq(8, _ => ProcNull));
  }

  // ---------------------------------------------------------------------
  // Cutting one axis of the global grid
  // ---------------------------------------------------------------------

  /** Width of a regular block: `global / parts` in C. */
  function AxisBase(total: int, parts: int): int
    requires parts >= 1
  {
    CArith.Div(total, parts)
  }

  /** Length of block k; the last block absorbs `global % parts`. */
  function AxisLen(total: int, parts: int, k: int): int
    requires parts >= 1
  {
    if k == parts - 1 then AxisBase(total, parts) + CArith.Rem(total, parts) else AxisBase(total, parts)
  }

  /** Global origin of block k. */
  function AxisOffset(total: int, parts: int, k: int): int
    requires parts >= 1
  {
    k * AxisBase(total, parts)
  }

  /** Block k holds coordinate g. */
  predicate AxisHolds(total: int, parts: int, k: int, g: int)
    requires parts >= 1
  {
    AxisOffset(total, parts, k) <= g < AxisOffset(total, parts, k) + AxisLen(total, parts, k)
  }

  /** The blocks are laid end to end from 0 to the global size, none of negative length. */
  lemma AxisTiles(total: int, parts: int)
    requires total >= 0 && parts >= 1
    ensures AxisOffset(total, parts, 0) == 0
    ensures forall k :: 0 <= k < parts ==> AxisLen(total, parts, k) >= 0
    ensures forall k :: 0 <= k < parts - 1 ==>
              AxisOffset(total, parts, k) + AxisLen(total, parts, k) == AxisOffset(total, parts, k + 1)
    ensures AxisOffset(total, parts, parts - 1) + AxisLen(total, parts, parts - 1) == total
    ensures AxisLen(total, parts, parts - 1) == total / parts + total % parts
  {
    CArith.NonNegativeAgrees(total, parts);
    var base := total / parts;
    assert (parts - 1) * base + base + total % parts == parts * base + total % parts == total;
  }

  /** A block that is not the last one ends at or before any later block starts. */
  lemma AxisOrdered(total: int, parts: int, k1: int, k2: int)
    requires total >= 0 && parts >= 1 && 0 <= k1 < k2 < parts
    ensures AxisOffset(total, parts, k1) + AxisLen(total, parts, k1) <= AxisOffset(total, parts, k2)
  {
    CArith.NonNegativeAgrees(total, parts);
    CArith.MulMono(k1 + 1, k2, total / parts);
  }

  /** At most one block holds any coordinate. */
  lemma AxisDisjoint(total: int, parts: int, k1: int, k2: int, g: int)
    requires total >= 0 && parts >= 1 && 0 <= k1 < parts && 0 <= k2 < parts
    requires AxisHolds(total, parts, k1, g) && AxisHolds(total, parts, k2, g)
    ensures k1 == k2
  {
    if k1 < k2 {
      AxisOrdered(total, parts, k1, k2);
    } else if k2 < k1 {
      AxisOrdered(total, parts, k2, k1);
    }
  }

  /**
   The block that owns coordinate g: `g / base` clamped to the last block,
   and the last block when every regular block is empty (base 0).
   */
  function AxisOwner(total: int, parts: int, g: int): (k: int)
    requires total >= 0 && parts >= 1 && 0 <= g < total
    ensures 0 <= k < parts
    ensures AxisHolds(total, parts, k, g)
    ensures forall j :: 0 <= j < parts && AxisHolds(total, parts, j, g) ==> j == k
  {
    var base := total / parts;
    var k := if base > 0 && g / base < parts - 1 then g / base else parts - 1;
    AxisOwnerHolds(total, parts, g, k);
    k
  }

  lemma AxisOwnerHolds(total: int, parts: int, g: int, k: int)
    requires total >= 0 && parts >= 1 && 0 <= g < total
    requires k == if total / parts > 0 && g / (total / parts) < parts - 1 then g / (total / parts) else parts - 1
    ensures 0 <= k < parts
    ensures AxisHolds(total, parts, k, g)
    ensures forall j :: 0 <= j < parts && AxisHolds(total, parts, j, g) ==> j == k
  {
    AxisOwnerInBlock(total, parts, g, k);
    forall j | 0 <= j < parts && AxisHolds(total, parts, j, g)
      ensures j == k
    {
      AxisDisjoint(total, parts, j, k, g);
    }
  }

  lemma AxisOwnerInBlock(total: int, parts: int, g: int, k: int)
    requires total >= 0 && parts >= 1 && 0 <= g < total
    requires k == if total / parts > 0 && g / (total / parts) < parts - 1 then g / (total / parts) else parts - 1
    ensures 0 <= k < parts
    ensures AxisHolds(total, parts, k, g)
  {
    CArith.NonNegativeAgrees(total, parts);
    var base := total / parts;
    AxisTiles(total, parts);
    assert AxisOffset(total, parts, k) == k * base;
    if base > 0 {
      QuotientBlock(g, base, parts, k);
    }
  }

  /** With positive base, g lies in [k * base, ...) for the clamped quotient k. */
  lemma QuotientBlock(g: int, base: int, parts: int, k: int)
    requires g >= 0 && base > 0 && parts >= 1
    requires k == if g / base < parts - 1 then g / base else parts - 1
    ensures k * base <= g
    ensures k < parts - 1 ==> g < k * base + base
  {
    assert (g / base) * base <= g;
    if g / base >= parts - 1 {
      CArith.MulMono(parts - 1, g / base, base);
    }
  }

  /**
   One axis of `partition_rank_for_global` as written: `g / base` when
   base > 0 and 0 otherwise, clamped from above to the last block.
   */
  function AxisRankCoord(total: int, parts: int, g: int): (k: int)
    requires parts >= 1
    ensures g >= 0 && total >= 0 ==> 0 <= k < parts
  {
    var base := AxisBase(total, parts);
    var k := if base > 0 then CArith.Div(g, base) else 0;
    CArith.DivNonNegative(g, if base > 0 then base else 1);
    if k >= parts then parts - 1 else k
  }

  /** With non-empty regular blocks the written coordinate is the owning block. */
  lemma AxisRankCoordIsOwner(total: int, parts: int, g: int)
    requires total >= 0 && parts >= 1 && 0 <= g < total && AxisBase(total, parts) > 0
    ensures AxisRankCoord(total, parts, g) == AxisOwner(total, parts, g)
  {
    CArith.NonNegativeAgrees(total, parts);
    var base := total / parts;
    CArith.NonNegativeAgrees(g, base);
    var k := AxisRankCoord(total, parts, g);
    assert k == if g / base >= parts then parts - 1 else g / base;
    assert AxisHolds(total, parts, k, g) by {
      AxisTiles(total, parts);
      assert (g / base) * base <= g < (g / base + 1) * base;
      if g / base >= parts - 1 {
        CArith.MulMono(parts - 1, g / base, base);
      }
    }
  }

  /**
   With fewer columns of cells than columns of ranks (base 0, more than one
   block) the written coordinate is block 0, which is empty, while the
   cell belongs to the last block.
   */
  lemma AxisRankCoordMissesOwner()
    ensures AxisRankCoord(1, 2, 0) == 0
    ensures AxisLen(1, 2, 0) == 0 && !AxisHolds(1, 2, 0, 0)
    ensures AxisOwner(1, 2, 0) == 1
  {
  }

  // ---------------------------------------------------------------------
  // Sub-grid dimensions, rank lookup and ownership
  // ---------------------------------------------------------------------

  datatype Dims = Dims(localW: int, localH: int, offsetX: int, offsetY: int)

  /** `partition_subgrid_dims`: the block of this rank's column and row. */
  function SubgridDims(p: Partition, globalW: int, globalH: int): (d: Dims)
    requires p.px >= 1 && p.py >= 1
    ensures globalW >= 0 && ValidPartition(p) ==> 0 <= d.offsetX && 0 <= d.localW && d.offsetX + d.localW <= globalW
    ensures globalH >= 0 && ValidPartition(p) ==> 0 <= d.offsetY && 0 <= d.localH && d.offsetY + d.localH <= globalH
  {
    OwnBlockInside(p, globalW, globalH);
    Dims(AxisLen(globalW, p.px, p.myCol), AxisLen(globalH, p.py, p.myRow),
         AxisOffset(globalW, p.px, p.myCol), AxisOffset(globalH, p.py, p.myRow))
  }

  lemma OwnBlockInside(p: Partition, globalW: int, globalH: int)
    requires p.px >= 1 && p.py >= 1
    ensures globalW >= 0 && ValidPartition(p) ==>
              0 <= AxisOffset(globalW, p.px, p.myCol) && 0 <= AxisLen(globalW, p.px, p.myCol)
              && AxisOffset(globalW, p.px, p.myCol) + AxisLen(globalW, p.px, p.myCol) <= globalW
    ensures globalH >= 0 && ValidPartition(p) ==>
              0 <= AxisOffset(globalH, p.py, p.myRow) && 0 <= AxisLen(globalH, p.py, p.myRow)
              && AxisOffset(globalH, p.py, p.myRow) + AxisLen(globalH, p.py, p.myRow) <= globalH
  {
    if globalW >= 0 && ValidPartition(p) {
      BlockInside(globalW, p.px, p.myCol);
    }
    if globalH >= 0 && ValidPartition(p) {
      BlockInside(globalH, p.py, p.myRow);
    }
  }

  /** Every block lies inside [0, total). */
  lemma BlockInside(total: int, parts: int, k: int)
    requires total >= 0 && parts >= 1 && 0 <= k < parts
    ensures 0 <= AxisOffset(total, parts, k) && 0 <= AxisLen(total, parts, k)
    ensures AxisOffset(total, parts, k) + AxisLen(total, parts, k) <= total
  {
    AxisTiles(total, parts);
    if k < parts - 1 {
      AxisOrdered(total, parts, k, parts - 1);
    }
    CArith.NonNegativeAgrees(total, parts);
    CArith.MulMono(0, k, total / parts);
  }

  /**
   `partition_rank_for_global` as written, as a (row, col) pair of the
   process grid: for non-negative coordinates both are in range.
   */
  function CoordsForGlobal(p: Partition, gx: int, gy: int, globalW: int, globalH: int): (rc: (int, int))
    requires p.px >= 1 && p.py >= 1
    ensures gx >= 0 && gy >= 0 && globalW >= 0 && globalH >= 0 ==> 0 <= rc.0 < p.py && 0 <= rc.1 < p.px
  {
    (AxisRankCoord(globalH, p.py, gy), AxisRankCoord(globalW, p.px, gx))
  }

  /**
   The rank `partition_rank_for_global` returns: the Cartesian rank of the
   coordinates in the MPI build, always 0 in the serial build.
   */
  function RankForGlobal(build: Build, p: Partition, gx: int, gy: int, globalW: int, globalH: int): (r: int)
    requires p.px >= 1 && p.py >= 1
    ensures build == Serial ==> r == 0
    ensures build == Mpi && ValidPartition(p) && gx >= 0 && gy >= 0 && globalW >= 0 && globalH >= 0 ==>
              0 <= r < p.size
  {
    var rc := CoordsForGlobal(p, gx, gy, globalW, globalH);
    if build == Serial then 0
    else
      if ValidPartition(p) && gx >= 0 && gy >= 0 && globalW >= 0 && globalH >= 0 then
        CartRankInRange(p.px, p.py, rc.0, rc.1);
        CartRank(p.px, rc.0, rc.1)
      else CartRank(p.px, rc.0, rc.1)
  }

  /** On the serial 1 by 1 grid both builds of the lookup agree: everything belongs to rank 0. */
  lemma SerialLookupAgrees(p: Partition, gx: int, gy: int, globalW: int, globalH: int)
    requires p.px == 1 && p.py == 1 && gx >= 0 && gy >= 0 && globalW >= 0 && globalH >= 0
    ensures RankForGlobal(Mpi, p, gx, gy, globalW, globalH) == RankForGlobal(Serial, p, gx, gy, globalW, globalH) == 0
  {
  }

  /** The owning (row, col) of a global cell; the corrected form of the lookup. */
  function OwnerCoords(p: Partition, gx: int, gy: int, globalW: int, globalH: int): (rc: (int, int))
    requires p.px >= 1 && p.py >= 1
    requires 0 <= gx < globalW && 0 <= gy < globalH
    ensures 0 <= rc.0 < p.py && 0 <= rc.1 < p.px
  {
    (AxisOwner(globalH, p.py, gy), AxisOwner(globalW, p.px, gx))
  }

  /** The owning rank of a global cell in the MPI build. */
  function OwnerRank(p: Partition, gx: int, gy: int, globalW: int, globalH: int): (r: int)
    requires ValidPartition(p)
    requires 0 <= gx < globalW && 0 <= gy < globalH
    ensures 0 <= r < p.size
  {
    var rc := OwnerCoords(p, gx, gy, globalW, globalH);
    CartRankInRange(p.px, p.py, rc.0, rc.1);
    CartRank(p.px, rc.0, rc.1)
  }

  /** When every block has at least one column and one row of cells, the written lookup returns the owner. */
  lemma RankForGlobalIsOwner(p: Partition, gx: int, gy: int, globalW: int, globalH: int)
    requires ValidPartition(p)
    requires 0 <= gx < globalW && 0 <= gy < globalH
    requires AxisBase(globalW, p.px) > 0 && AxisBase(globalH, p.py) > 0
    ensures CoordsForGlobal(p, gx, gy, globalW, globalH) == OwnerCoords(p, gx, gy, globalW, globalH)
    ensures RankForGlobal(Mpi, p, gx, gy, globalW, globalH) == OwnerRank(p, gx, gy, globalW, globalH)
  {
    AxisRankCoordIsOwner(globalW, p.px, gx);
    AxisRankCoordIsOwner(globalH, p.py, gy);
  }

  /** The counterexample of `AxisRankCoordMissesOwner` on a 2 by 1 process grid over a 1 by 1 grid. */
  lemma RankForGlobalMissesOwner()
    ensures var p := Partition(2, 1, 0, 1, 1, 2, seq(8, _ => ProcNull));
            && ValidPartition(p)
            && RankForGlobal(Mpi, p, 0, 0, 1, 1) == 0
            && OwnerRank(p, 0, 0, 1, 1) == 1
  {
    AxisRankCoordMissesOwner();
  }

  /** `partition_owns_global`: (gx, gy) lies in the sub-grid's half-open box. */
  predicate OwnsGlobal(sg: SubGrid, gx: int, gy: int) {
    && sg.offsetX <= gx < sg.offsetX + sg.localW
    && sg.offsetY <= gy < sg.offsetY + sg.localH
  }

  /** A sub-grid placed where `partition_subgrid_dims` puts this rank's block. */
  predicate PlacedBy(sg: SubGrid, p: Partition, globalW: int, globalH: int)
    requires p.px >= 1 && p.py >= 1
  {
    var d := SubgridDims(p, globalW, globalH);
    sg.localW == d.localW && sg.localH == d.localH && sg.offsetX == d.offsetX && sg.offsetY == d.offsetY
  }

  /** A rank owns exactly the cells whose owner coordinates are its own. */
  lemma OwnsIffOwner(p: Partition, sg: SubGrid, gx: int, gy: int, globalW: int, globalH: int)
    requires ValidPartition(p) && PlacedBy(sg, p, globalW, globalH)
    requires 0 <= gx < globalW && 0 <= gy < globalH
    ensures OwnsGlobal(sg, gx, gy) <==> OwnerCoords(p, gx, gy, globalW, globalH) == (p.myRow, p.myCol)
  {
    assert OwnsGlobal(sg, gx, gy) <==>
           AxisHolds(globalW, p.px, p.myCol, gx) && AxisHolds(globalH, p.py, p.myRow, gy);
    ExactlyOneOwner(p, gx, gy, globalW, globalH, p.myRow, p.myCol);
  }

  /** Every global cell is owned by exactly one position of the process grid. */
  lemma ExactlyOneOwner(p: Partition, gx: int, gy: int, globalW: int, globalH: int, row: int, col: int)
    requires ValidPartition(p) && 0 <= row < p.py && 0 <= col < p.px
    requires 0 <= gx < globalW && 0 <= gy < globalH
    ensures (AxisHolds(globalW, p.px, col, gx) && AxisHolds(globalH, p.py, row, gy)) <==>
            OwnerCoords(p, gx, gy, globalW, globalH) == (row, col)
  {
    var ox, oy := AxisOwner(globalW, p.px, gx), AxisOwner(globalH, p.py, gy);
    assert AxisHolds(globalW, p.px, col, gx) <==> col == ox;
    assert AxisHolds(globalH, p.py, row, gy) <==> row == oy;
  }
}
