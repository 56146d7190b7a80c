/**
 The xorshift64 generator and the per-cell seed hash. States are 64-bit
 words; every shift and XOR is the C `uint64_t` operation.
 */
module Rng {
  import CArith

  type RngState = bv64

  /** `rng_seed`: zero is the degenerate xorshift state, so it is replaced by 1. */
  function Seed(seed: bv64): (s: RngState)
    ensures s != 0
    ensures seed != 0 ==> s == seed
  {
    if seed == 0 then 1 else seed
  }

  /** Each xorshift step maps a non-zero word to a non-zero word. */
  lemma ShiftStepsKeepNonZero(x: bv64)
    ensures x != 0 ==> x ^ (x << 13) != 0
    ensures x != 0 ==> x ^ (x >> 7) != 0
    ensures x != 0 ==> x ^ (x << 17) != 0
  {
  }

  /**
   `rng_next`: `x ^= x << 13; x ^= x >> 7; x ^= x << 17`; the new state is also
   the value returned. A non-zero state never becomes zero.
   */
  function Next(x: RngState): (r: RngState)
    ensures x != 0 ==> r != 0
  {
    var a := x ^ (x << 13);
    ShiftStepsKeepNonZero(x);
    var b := a ^ (a >> 7);
    ShiftStepsKeepNonZero(a);
    ShiftStepsKeepNonZero(b);
    b ^ (b << 17)
  }

  /** Zero is the fixed point the seeding avoids. */
  lemma ZeroIsFixed()
    ensures Next(0) == 0
  {
  }

  /** Seeding is idempotent: a seeded state is left as it is. */
  lemma SeedIdempotent(seed: bv64)
    ensures Seed(Seed(seed)) == Seed(seed)
  {
  }

  /** The state after n steps from s. */
  function Iterate(s: RngState, n: nat): (r: RngState)
    ensures s != 0 ==> r != 0
  {
    if n == 0 then s else Next(Iterate(s, n - 1))
  }

  /** The multipliers of the coordinate hash. */
  const KnuthX: nat := 2654435761
  const MultY: nat := 40503

  /** The coordinates folded into the base seed before mixing. */
  function CellPremix(baseSeed: bv64, gx: int, gy: int): bv64 {
    baseSeed ^ CArith.MulU64(gx, KnuthX) ^ CArith.MulU64(gy, MultY)
  }

  /**
   `rng_cell_seed`: the premixed word goes through one xorshift round (the same
   three shifts as `rng_next`); a zero outcome is replaced by 1.
   */
  function CellSeed(baseSeed: bv64, gx: int, gy: int): (h: bv64)
    ensures h != 0
  {
    var h := Next(CellPremix(baseSeed, gx, gy));
    if h != 0 then h else 1
  }

  /** The hash is a seeded state: `rng_seed` leaves it as it is. */
  lemma CellSeedIsSeeded(baseSeed: bv64, gx: int, gy: int)
    ensures Seed(CellSeed(baseSeed, gx, gy)) == CellSeed(baseSeed, gx, gy)
    ensures CellPremix(baseSeed, gx, gy) != 0 ==> CellSeed(baseSeed, gx, gy) == Next(CellPremix(baseSeed, gx, gy))
    ensures CellPremix(baseSeed, gx, gy) == 0 ==> CellSeed(baseSeed, gx, gy) == 1
  {
    ZeroIsFixed();
  }
}
