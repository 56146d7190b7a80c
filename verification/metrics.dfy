/**
 Local metrics of one rank: the resource total of its owned cells and the
 energy statistics of its live agents.
 */
module Metrics {
  import opened Types

  /** `DBL_MAX`, exactly: (2 - 2^-52) * 2^1023. */
  const DblMax: real := 179769313486231570814527423731704356798070567525844996598917476803157260780028538760589558632766878171540458953514382464234321326889464182768467546703537516986049910576551282076245490090389328944075868508455133942304583236903222948165808559332123348274797826204144723168738177180919299881250404026184124858368.0

  /** `SimMetrics`; locally `avgEnergy` holds the energy SUM, which the global reduction divides. */
  datatype SimMetrics = SimMetrics(
    totalResource: real, avgEnergy: real,
    maxEnergy: real, minEnergy: real,
    aliveAgents: int)

  // ---------------------------------------------------------------------
  // Resource total over the interior
  // ---------------------------------------------------------------------

  /** Resource of interior row r, columns 1..n. */
  function ColsSum(sg: SubGrid, r: int, n: int): real
    requires ValidSubGrid(sg) && 1 <= r <= sg.localH && 0 <= n <= sg.localW
  {
    if n == 0 then 0.0 else ColsSum(sg, r, n - 1) + CellOf(sg, r, n).resource
  }

  /** Resource of interior rows 1..n, each over all its interior columns. */
  function RowsSum(sg: SubGrid, n: int): real
    requires ValidSubGrid(sg) && 0 <= n <= sg.localH
  {
    if n == 0 then 0.0 else RowsSum(sg, n - 1) + ColsSum(sg, n, sg.localW)
  }

  /** The resource held by the owned cells. */
  function InteriorTotal(sg: SubGrid): real
    requires ValidSubGrid(sg)
  {
    RowsSum(sg, sg.localH)
  }

  /** Two sub-grids with the same interior (whatever their halos hold) have the same row sums. */
  lemma {:induction false} ColsSumInteriorOnly(sg1: SubGrid, sg2: SubGrid, r: int, n: int)
    requires ValidSubGrid(sg1) && ValidSubGrid(sg2)
    requires sg1.localW == sg2.localW && sg1.localH == sg2.localH
    requires forall r', c :: IsInterior(sg1, r', c) ==> CellOf(sg1, r', c).resource == CellOf(sg2, r', c).resource
    requires 1 <= r <= sg1.localH && 0 <= n <= sg1.localW
    ensures ColsSum(sg1, r, n) == ColsSum(sg2, r, n)
  {
    if n > 0 {
      ColsSumInteriorOnly(sg1, sg2, r, n - 1);
      assert IsInterior(sg1, r, n);
    }
  }

  lemma {:induction false} RowsSumInteriorOnly(sg1: SubGrid, sg2: SubGrid, n: int)
    requires ValidSubGrid(sg1) && ValidSubGrid(sg2)
    requires sg1.localW == sg2.localW && sg1.localH == sg2.localH
    requires forall r, c :: IsInterior(sg1, r, c) ==> CellOf(sg1, r, c).resource == CellOf(sg2, r, c).resource
    requires 0 <= n <= sg1.localH
    ensures RowsSum(sg1, n) == RowsSum(sg2, n)
  {
    if n > 0 {
      RowsSumInteriorOnly(sg1, sg2, n - 1);
      ColsSumInteriorOnly(sg1, sg2, n, sg1.localW);
    }
  }

  /** Halo cells never count: sub-grids that agree on the interior have the same total. */
  lemma InteriorOnly(sg1: SubGrid, sg2: SubGrid)
    requires ValidSubGrid(sg1) && ValidSubGrid(sg2)
    requires sg1.localW == sg2.localW && sg1.localH == sg2.localH
    requires forall r, c :: IsInterior(sg1, r, c) ==> CellOf(sg1, r, c).resource == CellOf(sg2, r, c).resource
    ensures InteriorTotal(sg1) == InteriorTotal(sg2)
  {
    RowsSumInteriorOnly(sg1, sg2, sg1.localH);
  }

  /** Bounds on the total from bounds on each owned cell. */
  lemma {:induction false} ColsSumBounds(sg: SubGrid, r: int, n: int, hi: real)
    requires ValidSubGrid(sg) && 1 <= r <= sg.localH && 0 <= n <= sg.localW
    requires forall c :: 1 <= c <= sg.localW ==> 0.0 <= CellOf(sg, r, c).resource <= hi
    ensures 0.0 <= ColsSum(sg, r, n) <= n as real * hi
  {
    if n > 0 {
      ColsSumBounds(sg, r, n - 1, hi);
    }
  }

  lemma {:induction false} RowsSumBounds(sg: SubGrid, n: int, hi: real)
    requires ValidSubGrid(sg) && 0 <= n <= sg.localH
    requires forall r, c :: IsInterior(sg, r, c) ==> 0.0 <= CellOf(sg, r, c).resource <= hi
    ensures 0.0 <= RowsSum(sg, n) <= n as real * (sg.localW as real * hi)
  {
    if n > 0 {
      RowsSumBounds(sg, n - 1, hi);
      ColsSumBounds(sg, n, sg.localW, hi);
    }
  }

  /** With every owned resource in [0, hi], the total lies in [0, local_w * local_h * hi]. */
  lemma InteriorTotalBounds(sg: SubGrid, hi: real)
    requires ValidSubGrid(sg)
    requires forall r, c :: IsInterior(sg, r, c) ==> 0.0 <= CellOf(sg, r, c).resource <= hi
    ensures 0.0 <= InteriorTotal(sg) <= sg.localH as real * (sg.localW as real * hi)
  {
    RowsSumBounds(sg, sg.localH, hi);
  }

  // ---------------------------------------------------------------------
  // Agent statistics
  // ---------------------------------------------------------------------

  /** Number of live agents. */
  function AliveCount(agents: seq<Agent>): (n: nat)
    ensures n <= |agents|
  {
    if |agents| == 0 then 0
    else AliveCount(agents[..|agents| - 1]) + (if agents[|agents| - 1].alive then 1 else 0)
  }

  /** Sum of the energies of the live agents. */
  function AliveEnergy(agents: seq<Agent>): real {
    if |agents| == 0 then 0.0
    else AliveEnergy(agents[..|agents| - 1]) + (if agents[|agents| - 1].alive then agents[|agents| - 1].energy else 0.0)
  }

  /** Both statistics add up over a split of the agent array: they can be summed across ranks. */
  lemma {:induction false} StatsAppend(a: seq<Agent>, b: seq<Agent>)
    ensures AliveCount(a + b) == AliveCount(a) + AliveCount(b)
    ensures AliveEnergy(a + b) == AliveEnergy(a) + AliveEnergy(b)
    decreases |b|
  {
    if |b| > 0 {
      var b' := b[..|b| - 1];
      assert (a + b)[..|a + b| - 1] == a + b';
      StatsAppend(a, b');
    } else {
      assert a + b == a;
    }
  }

  /** Dead agents contribute nothing, and the count is the number of live indices. */
  lemma {:induction false} AliveCountCounts(agents: seq<Agent>)
    ensures AliveCount(agents) == 0 <==> forall k :: 0 <= k < |agents| ==> !agents[k].alive
    ensures AliveCount(agents) == |agents| <==> forall k :: 0 <= k < |agents| ==> agents[k].alive
    ensures AliveCount(agents) == 0 ==> AliveEnergy(agents) == 0.0
  {
    if |agents| > 0 {
      var init := agents[..|agents| - 1];
      AliveCountCounts(init);
      assert forall k :: 0 <= k < |init| ==> init[k] == agents[k];
    }
  }

  /** Every live agent's energy is a finite double. */
  predicate FiniteEnergies(agents: seq<Agent>) {
    forall k :: 0 <= k < |agents| && agents[k].alive ==> -DblMax <= agents[k].energy <= DblMax
  }

  /**
   `metrics_compute_local`: the interior resource total, the number of
   live agents, the sum of their energies (stored as `avgEnergy`), and
   the largest and smallest live energy, which are energies of live
   agents; with no live agent both are 0.
   */
  method MetricsComputeLocal(sg: SubGrid, agents: seq<Agent>) returns (m: SimMetrics)
    requires ValidSubGrid(sg) && FiniteEnergies(agents)
    ensures m.totalResource == InteriorTotal(sg)
    ensures m.aliveAgents == AliveCount(agents)
    ensures m.avgEnergy == AliveEnergy(agents)
    ensures m.aliveAgents == 0 ==> m.maxEnergy == 0.0 && m.minEnergy == 0.0
    ensures m.aliveAgents > 0 ==>
              && m.minEnergy <= m.maxEnergy
              && (exists k :: 0 <= k < |agents| && agents[k].alive && agents[k].energy == m.maxEnergy)
              && (exists k :: 0 <= k < |agents| && agents[k].alive && agents[k].energy == m.minEnergy)
    ensures forall k :: 0 <= k < |agents| && agents[k].alive ==> m.minEnergy <= agents[k].energy <= m.maxEnergy
  {
    var total := 0.0;
    var r := 1;
    while r <= sg.localH
      invariant 1 <= r <= sg.localH + 1
      invariant total == RowsSum(sg, r - 1)
    {
      var c := 1;
      while c <= sg.localW
        invariant 1 <= c <= sg.localW + 1
        invariant total == RowsSum(sg, r - 1) + ColsSum(sg, r, c - 1)
      {
        CellAtBounds(sg, r, c);
        total := total + sg.cells[CellAt(sg, r, c)].resource;
        c := c + 1;
      }
      r := r + 1;
    }

    var sum, maxE, minE, alive := 0.0, -DblMax, DblMax, 0;
    var i := 0;
    while i < |agents|
      invariant 0 <= i <= |agents|
      invariant alive == AliveCount(agents[..i]) && sum == AliveEnergy(agents[..i])
      invariant alive == 0 ==> maxE == -DblMax && minE == DblMax
      invariant alive > 0 ==>
                  && (exists k :: 0 <= k < i && agents[k].alive && agents[k].energy == maxE)
                  && (exists k :: 0 <= k < i && agents[k].alive && agents[k].energy == minE)
      invariant forall k :: 0 <= k < i && agents[k].alive ==> minE <= agents[k].energy <= maxE
    {
      assert agents[..i + 1][..i] == agents[..i];
      if agents[i].alive {
        var e := agents[i].energy;
        sum := sum + e;
        if e > maxE { maxE := e; }
        if e < minE { minE := e; }
        alive := alive + 1;
      }
      i := i + 1;
    }
    assert agents[..|agents|] == agents;
    m := SimMetrics(total, sum, if alive > 0 then maxE else 0.0, if alive > 0 then minE else 0.0, alive);
    if alive == 0 {
      AliveCountCounts(agents);
    }
  }
}
