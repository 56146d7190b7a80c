/**
 Seasonal rules: which season a cycle falls in, which cell types can be
 entered in each season, and how fast each type regenerates.
 */
module Seasons {
  import opened Types
  import CArith

  /**
   Seasons alternate every `seasonLength` cycles: an even epoch index
   `cycle / seasonLength` (C division) is dry, an odd one is wet.
   */
  function SeasonForCycle(cycle: int, seasonLength: int): (s: Season)
    requires seasonLength > 0
    ensures cycle >= 0 ==> (s == Dry <==> (cycle / seasonLength) % 2 == 0)
  {
    if CArith.Rem(CArith.Div(cycle, seasonLength), 2) == 0 then Dry else Wet
  }

  /** The season is the same for every cycle of the block [k*L, (k+1)*L). */
  lemma SeasonConstantOnBlock(k: nat, j: int, seasonLength: int)
    requires seasonLength > 0 && 0 <= j < seasonLength
    ensures SeasonForCycle(k * seasonLength + j, seasonLength) == SeasonForCycle(k * seasonLength, seasonLength)
    ensures SeasonForCycle(k * seasonLength, seasonLength) == (if k % 2 == 0 then Dry else Wet)
  {
    var L := seasonLength;
    assert (k * L + j) / L == k by {
      assert k * L <= k * L + j < (k + 1) * L;
      DivOfBlock(k, j, L);
    }
    assert (k * L) / L == k by {
      DivOfBlock(k, 0, L);
    }
  }

  lemma DivOfBlock(k: nat, j: int, L: int)
    requires L > 0 && 0 <= j < L
    ensures (k * L + j) / L == k
  {
    CArith.DivUnique(k * L + j, L, k, j);
  }

  /** Consecutive blocks have opposite seasons. */
  lemma SeasonAlternates(k: nat, seasonLength: int)
    requires seasonLength > 0
    ensures SeasonForCycle((k + 1) * seasonLength, seasonLength) != SeasonForCycle(k * seasonLength, seasonLength)
  {
    SeasonConstantOnBlock(k, 0, seasonLength);
    SeasonConstantOnBlock(k + 1, 0, seasonLength);
  }

  /** The season sequence repeats with period 2 * seasonLength. */
  lemma SeasonPeriodic(cycle: nat, seasonLength: int)
    requires seasonLength > 0
    ensures SeasonForCycle(cycle + 2 * seasonLength, seasonLength) == SeasonForCycle(cycle, seasonLength)
  {
    var L := seasonLength;
    var k, j := cycle / L, cycle % L;
    assert cycle == k * L + j;
    assert cycle + 2 * L == (k + 2) * L + j;
    SeasonConstantOnBlock(k, j, L);
    SeasonConstantOnBlock(k + 2, j, L);
  }

  /** `season_accessibility`: whether a cell of type t can be entered in season s. */
  function Accessible(t: CellType, s: Season): bool {
    match t
    case Aldeia => true
    case Pesca => s == Dry
    case Coleta => true
    case Rocado => s == Wet
    case Interditada => false
  }

  /** Villages and gathering areas are always open, forbidden land never is, and
      in every season exactly one of fishing and farming land is open. */
  lemma AccessibilityRules(s: Season)
    ensures Accessible(Aldeia, s) && Accessible(Coleta, s) && !Accessible(Interditada, s)
    ensures Accessible(Pesca, s) <==> s == Dry
    ensures Accessible(Rocado, s) <==> s == Wet
    ensures Accessible(Pesca, s) != Accessible(Rocado, s)
  {
  }

  /** `season_regen_rate`: the fraction of the missing resource a cell regains per cycle. */
  function RegenRate(t: CellType, s: Season): (rate: real)
    ensures 0.0 <= rate <= 0.04
    ensures (t == Aldeia || t == Interditada) ==> rate == 0.0
    ensures rate > 0.0 <==> (t == Pesca || t == Coleta || t == Rocado)
  {
    match t
    case Aldeia => 0.0
    case Pesca => if s == Dry then 0.03 else 0.01
    case Coleta => if s == Dry then 0.01 else 0.03
    case Rocado => if s == Dry then 0.02 else 0.04
    case Interditada => 0.0
  }

  /** Fishing regenerates faster in the dry season, gathering and farming in the wet one. */
  lemma RegenFavouredSeason()
    ensures RegenRate(Pesca, Dry) > RegenRate(Pesca, Wet)
    ensures RegenRate(Coleta, Wet) > RegenRate(Coleta, Dry)
    ensures RegenRate(Rocado, Wet) > RegenRate(Rocado, Dry)
  {
  }
}
