/**
 Agents: the deterministic initial placement and the single-agent decision
 step (argmax move over the eight neighbours and the current cell, then
 consumption or energy loss).
 */
module Agents {
  import opened Types
  import Partitioning
  import Rng
  import CArith

  /** Direction offsets N, S, E, W, NE, NW, SE, SW, Stay: `Dx` moves the column (gx), `Dy` the row (gy). */
  const Dx: seq<int> := [0, 0, 1, -1, 1, -1, 1, -1, 0]
  const Dy: seq<int> := [-1, 1, 0, 0, -1, -1, 1, 1, 0]

  /** The direction index that leaves the agent where it is. */
  const Stay: int := 8

  /** Every direction moves at most one step on each axis, and only `Stay` moves not at all. */
  lemma DirectionsAreSteps(d: int)
    requires 0 <= d < 9
    ensures -1 <= Dx[d] <= 1 && -1 <= Dy[d] <= 1
    ensures (Dx[d] == 0 && Dy[d] == 0) <==> d == Stay
  {
  }

  // ---------------------------------------------------------------------
  // Placement
  // ---------------------------------------------------------------------

  /** The placement generator: one global sequence seeded from `seed ^ 0xA6E47`. */
  function PlacementStart(seed: bv64): Rng.RngState {
    Rng.Seed(seed ^ 0xA6E47)
  }

  /** Agent i's column: the (2i+1)-th draw of the placement sequence modulo the grid width. */
  function DrawX(seed: bv64, i: nat, globalW: int): (gx: int)
    requires globalW > 0
    ensures 0 <= gx < globalW
  {
    (Rng.Iterate(PlacementStart(seed), 2 * i + 1) as int) % globalW
  }

  /** Agent i's row: the (2i+2)-th draw modulo the grid height. */
  function DrawY(seed: bv64, i: nat, globalH: int): (gy: int)
    requires globalH > 0
    ensures 0 <= gy < globalH
  {
    (Rng.Iterate(PlacementStart(seed), 2 * i + 2) as int) % globalH
  }

  /** The two draws after 2i steps give agent i's position and leave the generator 2(i + 1) steps in. */
  lemma DrawStep(seed: bv64, i: nat, globalW: int, globalH: int, g: Rng.RngState)
    requires globalW > 0 && globalH > 0
    requires g == Rng.Iterate(PlacementStart(seed), 2 * i)
    ensures (Rng.Next(g) as int) % globalW == DrawX(seed, i, globalW)
    ensures (Rng.Next(Rng.Next(g)) as int) % globalH == DrawY(seed, i, globalH)
    ensures Rng.Next(Rng.Next(g)) == Rng.Iterate(PlacementStart(seed), 2 * (i + 1))
  {
    var p := PlacementStart(seed);
    assert Rng.Iterate(p, 2 * i + 1) == Rng.Next(g);
    assert Rng.Iterate(p, 2 * i + 2) == Rng.Next(Rng.Next(g));
  }

  /** Appending an agent keeps every id already present and adds the new one. */
  lemma AppendKeepsIds(prev: seq<Agent>, a: Agent, id: int)
    requires id == a.id || exists k :: 0 <= k < |prev| && prev[k].id == id
    ensures exists k :: 0 <= k < |prev + [a]| && (prev + [a])[k].id == id
  {
    if id == a.id {
      assert (prev + [a])[|prev|].id == id;
    } else {
      var k :| 0 <= k < |prev| && prev[k].id == id;
      assert (prev + [a])[k] == prev[k];
    }
  }

  /**
   `agents_init`: agent i is kept, with id i, full energy and alive, exactly
   when this sub-grid owns its drawn position. Both draws are made for every
   agent, kept or not, so each agent's position is the same on every rank.
   */
  method AgentsInit(numTotal: int, sg: SubGrid, globalW: int, globalH: int,
                    initialEnergy: real, seed: bv64) returns (agents: seq<Agent>)
    requires globalW > 0 && globalH > 0
    ensures numTotal >= 0 ==> |agents| <= numTotal
    ensures numTotal <= 0 ==> agents == []
    ensures forall k :: 0 <= k < |agents| ==>
              var a := agents[k];
              && 0 <= a.id < numTotal
              && a == Agent(a.id, DrawX(seed, a.id, globalW), DrawY(seed, a.id, globalH), initialEnergy, true)
              && Partitioning.OwnsGlobal(sg, a.gx, a.gy)
              && 0 <= a.gx < globalW && 0 <= a.gy < globalH
    ensures forall j, k :: 0 <= j < k < |agents| ==> agents[j].id < agents[k].id
    ensures forall i :: 0 <= i < numTotal && Partitioning.OwnsGlobal(sg, DrawX(seed, i, globalW), DrawY(seed, i, globalH)) ==>
              exists k :: 0 <= k < |agents| && agents[k].id == i
  {
    agents := [];
    var grng := PlacementStart(seed);
    var i := 0;
    while i < numTotal
      invariant 0 <= i <= (if numTotal < 0 then 0 else numTotal) && |agents| <= i
      invariant grng == Rng.Iterate(PlacementStart(seed), 2 * i)
      invariant KeptBelow(agents, i, sg, globalW, globalH, initialEnergy, seed)
    {
      DrawStep(seed, i, globalW, globalH, grng);
      grng := Rng.Next(grng);
      var gx := (grng as int) % globalW;
      grng := Rng.Next(grng);
      var gy := (grng as int) % globalH;
      if Partitioning.OwnsGlobal(sg, gx, gy) {
        KeptAppend(agents, i, sg, globalW, globalH, initialEnergy, seed);
        agents := agents + [Agent(i, gx, gy, initialEnergy, true)];
      } else {
        KeptSkip(agents, i, sg, globalW, globalH, initialEnergy, seed);
      }
      i := i + 1;
    }
  }

  /**
   `agents` holds, in increasing id order, exactly the agents with id below
   n whose drawn position this sub-grid owns, each as placed.
   */
  ghost predicate KeptBelow(agents: seq<Agent>, n: int, sg: SubGrid, globalW: int, globalH: int, initialEnergy: real, seed: bv64)
    requires globalW > 0 && globalH > 0
  {
    && (forall k :: 0 <= k < |agents| ==>
          var a := agents[k];
          && 0 <= a.id < n
          && a == Agent(a.id, DrawX(seed, a.id, globalW), DrawY(seed, a.id, globalH), initialEnergy, true)
          && Partitioning.OwnsGlobal(sg, a.gx, a.gy))
    && (forall j, k :: 0 <= j < k < |agents| ==> agents[j].id < agents[k].id)
    && (forall i :: 0 <= i < n && Partitioning.OwnsGlobal(sg, DrawX(seed, i, globalW), DrawY(seed, i, globalH)) ==>
          exists k :: 0 <= k < |agents| && agents[k].id == i)
  }

  /** Agent n, owned here, is appended. */
  lemma KeptAppend(agents: seq<Agent>, n: nat, sg: SubGrid, globalW: int, globalH: int, initialEnergy: real, seed: bv64)
    requires globalW > 0 && globalH > 0
    requires KeptBelow(agents, n, sg, globalW, globalH, initialEnergy, seed)
    requires Partitioning.OwnsGlobal(sg, DrawX(seed, n, globalW), DrawY(seed, n, globalH))
    ensures KeptBelow(agents + [Agent(n, DrawX(seed, n, globalW), DrawY(seed, n, globalH), initialEnergy, true)],
                      n + 1, sg, globalW, globalH, initialEnergy, seed)
  {
    var x := Agent(n, DrawX(seed, n, globalW), DrawY(seed, n, globalH), initialEnergy, true);
    var t := agents + [x];
    forall k | 0 <= k < |t|
      ensures var a := t[k];
              && 0 <= a.id < n + 1
              && a == Agent(a.id, DrawX(seed, a.id, globalW), DrawY(seed, a.id, globalH), initialEnergy, true)
              && Partitioning.OwnsGlobal(sg, a.gx, a.gy)
    {
      if k < |agents| {
        assert t[k] == agents[k];
      }
    }
    forall j, k | 0 <= j < k < |t|
      ensures t[j].id < t[k].id
    {
      assert t[j] == agents[j];
      if k < |agents| {
        assert t[k] == agents[k];
      }
    }
    forall i | 0 <= i < n + 1 && Partitioning.OwnsGlobal(sg, DrawX(seed, i, globalW), DrawY(seed, i, globalH))
      ensures exists k :: 0 <= k < |t| && t[k].id == i
    {
      AppendKeepsIds(agents, x, i);
    }
  }

  /** Agent n, owned elsewhere, is skipped. */
  lemma KeptSkip(agents: seq<Agent>, n: nat, sg: SubGrid, globalW: int, globalH: int, initialEnergy: real, seed: bv64)
    requires globalW > 0 && globalH > 0
    requires KeptBelow(agents, n, sg, globalW, globalH, initialEnergy, seed)
    requires !Partitioning.OwnsGlobal(sg, DrawX(seed, n, globalW), DrawY(seed, n, globalH))
    ensures KeptBelow(agents, n + 1, sg, globalW, globalH, initialEnergy, seed)
  {
  }

  // ---------------------------------------------------------------------
  // Decision
  // ---------------------------------------------------------------------

  /** Halo row and column of direction d from halo position (lr, lc). */
  function TargetRow(lr: int, d: int): int requires 0 <= d < 9 { lr + Dy[d] }
  function TargetCol(lc: int, d: int): int requires 0 <= d < 9 { lc + Dx[d] }

  /** Direction d from (lr, lc) stays inside the padded buffer and reaches an accessible cell. */
  predicate Candidate(sg: SubGrid, lr: int, lc: int, d: int)
    requires ValidSubGrid(sg)
  {
    && 0 <= d < 9
    && InHalo(sg, TargetRow(lr, d), TargetCol(lc, d))
    && CellOf(sg, TargetRow(lr, d), TargetCol(lc, d)).accessible
  }

  /** The resource of the cell direction d reaches. */
  function Reach(sg: SubGrid, lr: int, lc: int, d: int): real
    requires ValidSubGrid(sg) && 0 <= d < 9 && InHalo(sg, TargetRow(lr, d), TargetCol(lc, d))
  {
    CellOf(sg, TargetRow(lr, d), TargetCol(lc, d)).resource
  }

  /** The running state of the direction scan: best resource seen, its direction, ties so far, generator. */
  datatype Choice = Choice(best: real, dir: int, ties: int, rng: Rng.RngState)

  /**
   What holds after directions [0, d) are scanned: the chosen direction is a
   candidate holding the best resource (or still the initial stay with
   best -1), and no scanned candidate holds more than the best.
   */
  predicate Scanned(sg: SubGrid, lr: int, lc: int, ch: Choice, d: int)
    requires ValidSubGrid(sg)
  {
    && ch.ties >= 0 && 0 <= ch.dir < 9 && ch.best >= -1.0
    && ((Candidate(sg, lr, lc, ch.dir) && Reach(sg, lr, lc, ch.dir) == ch.best)
        || (ch.dir == Stay && ch.best == -1.0))
    && forall e :: 0 <= e < d && Candidate(sg, lr, lc, e) ==> Reach(sg, lr, lc, e) <= ch.best
  }

  /**
   The loop over directions d..8: strictly more resource takes the lead;
   equal resource is a tie, broken by reservoir sampling with one draw.
   */
  function ScanFrom(sg: SubGrid, lr: int, lc: int, d: int, ch: Choice): (r: Choice)
    requires ValidSubGrid(sg) && 0 <= d <= 9 && Scanned(sg, lr, lc, ch, d)
    ensures Scanned(sg, lr, lc, r, 9)
    ensures r.best >= ch.best
    ensures (forall e :: d <= e < 9 ==> !Candidate(sg, lr, lc, e)) ==> r == ch
    decreases 9 - d
  {
    if d == 9 then ch
    else if !Candidate(sg, lr, lc, d) then ScanFrom(sg, lr, lc, d + 1, ch)
    else
      var res := Reach(sg, lr, lc, d);
      if res > ch.best then
        ScannedLead(sg, lr, lc, ch, d);
        ScanFrom(sg, lr, lc, d + 1, Choice(res, d, 1, ch.rng))
      else if res == ch.best then
        var rng' := Rng.Next(ch.rng);
        var ties := ch.ties + 1;
        var dir := if (rng' as int) % ties == 0 then d else ch.dir;
        ScannedTie(sg, lr, lc, ch, d, Choice(ch.best, dir, ties, rng'));
        ScanFrom(sg, lr, lc, d + 1, Choice(ch.best, dir, ties, rng'))
      else
        ScanFrom(sg, lr, lc, d + 1, ch)
  }

  /** A candidate with strictly more resource than the best so far takes the lead. */
  lemma ScannedLead(sg: SubGrid, lr: int, lc: int, ch: Choice, d: int)
    requires ValidSubGrid(sg) && 0 <= d < 9 && Scanned(sg, lr, lc, ch, d)
    requires Candidate(sg, lr, lc, d) && Reach(sg, lr, lc, d) > ch.best
    ensures Scanned(sg, lr, lc, Choice(Reach(sg, lr, lc, d), d, 1, ch.rng), d + 1)
  {
  }

  /** A tie keeps the best, with either the old direction or the new one. */
  lemma ScannedTie(sg: SubGrid, lr: int, lc: int, ch: Choice, d: int, ch': Choice)
    requires ValidSubGrid(sg) && 0 <= d < 9 && Scanned(sg, lr, lc, ch, d)
    requires Candidate(sg, lr, lc, d) && Reach(sg, lr, lc, d) == ch.best
    requires ch'.best == ch.best && ch'.ties == ch.ties + 1 && (ch'.dir == d || ch'.dir == ch.dir)
    ensures Scanned(sg, lr, lc, ch', d + 1)
  {
  }

  /**
   The whole scan from best -1, direction stay, no ties. The chosen
   direction's cell is accessible and at least as rich as every other
   accessible neighbour; with no accessible neighbour the agent stays.
   */
  function Scan(sg: SubGrid, lr: int, lc: int, rng: Rng.RngState): (r: Choice)
    requires ValidSubGrid(sg)
    ensures 0 <= r.dir < 9 && r.best >= -1.0
    ensures forall e :: 0 <= e < 9 && Candidate(sg, lr, lc, e) ==> Reach(sg, lr, lc, e) <= r.best
    ensures (Candidate(sg, lr, lc, r.dir) && Reach(sg, lr, lc, r.dir) == r.best) || (r.dir == Stay && r.best == -1.0)
    ensures (forall e :: 0 <= e < 9 ==> !Candidate(sg, lr, lc, e)) ==> r.dir == Stay
  {
    ScanFrom(sg, lr, lc, 0, Choice(-1.0, Stay, 0, rng))
  }

  /** Cells never hold negative resource, as `subgrid_init`, `subgrid_update` and consumption keep. */
  ghost predicate NonNegativeResources(sg: SubGrid)
    requires ValidSubGrid(sg)
  {
    forall r, c :: InHalo(sg, r, c) ==> CellOf(sg, r, c).resource >= 0.0
  }

  /**
   On a grid without negative resources the scan picks an accessible
   argmax whenever one exists.
   */
  lemma ScanPicksRichest(sg: SubGrid, lr: int, lc: int, rng: Rng.RngState, e: int)
    requires ValidSubGrid(sg) && NonNegativeResources(sg) && Candidate(sg, lr, lc, e)
    ensures var r := Scan(sg, lr, lc, rng);
            Candidate(sg, lr, lc, r.dir) && Reach(sg, lr, lc, e) <= Reach(sg, lr, lc, r.dir)
  {
    var r := Scan(sg, lr, lc, rng);
    assert Reach(sg, lr, lc, e) >= 0.0;
  }

  /** One agent's step: the agent, the sub-grid (whose cell may lose resource) and the thread's generator. */
  datatype Step = Step(agent: Agent, grid: SubGrid, rng: Rng.RngState)

  /** The agent at halo (r, c) can eat there: inside the buffer, accessible, with resource left. */
  predicate CanConsume(sg: SubGrid, r: int, c: int)
    requires ValidSubGrid(sg)
  {
    InHalo(sg, r, c) && CellOf(sg, r, c).accessible && CellOf(sg, r, c).resource > 0.0
  }

  function Min(a: real, b: real): (m: real)
    ensures m <= a && m <= b && (m == a || m == b)
  {
    if a < b then a else b
  }

  /** Halo row and column of an agent's global position. */
  function HaloRow(sg: SubGrid, a: Agent): int { a.gy - sg.offsetY + 1 }
  function HaloCol(sg: SubGrid, a: Agent): int { a.gx - sg.offsetX + 1 }

  /**
   The bookkeeping half of `agent_decide`, at the agent's (new) position:
   eat `min(gain, resource)` of an accessible cell with resource left,
   gaining `gain` energy, or else lose `loss` energy; the agent dies
   exactly when its energy is no longer positive. Only the eaten cell
   changes, and it keeps a non-negative resource.
   */
  function Bookkeep(a: Agent, sg: SubGrid, gain: real, loss: real): (s: (Agent, SubGrid))
    requires ValidSubGrid(sg)
    ensures ValidSubGrid(s.1) && s.1.localW == sg.localW && s.1.localH == sg.localH
    ensures s.1.offsetX == sg.offsetX && s.1.offsetY == sg.offsetY
    ensures s.0 == a.(energy := s.0.energy, alive := s.0.alive)
    ensures s.0.alive <==> s.0.energy > 0.0
    ensures var r, c := HaloRow(sg, a), HaloCol(sg, a);
            && (CanConsume(sg, r, c) ==>
                  && s.0.energy == a.energy + gain
                  && CellOf(s.1, r, c) == CellOf(sg, r, c).(resource := CellOf(sg, r, c).resource - Min(gain, CellOf(sg, r, c).resource))
                  && 0.0 <= CellOf(s.1, r, c).resource
                  && (gain > 0.0 ==> CellOf(s.1, r, c).resource < CellOf(sg, r, c).resource))
            && (!CanConsume(sg, r, c) ==> s.0.energy == a.energy - loss && s.1 == sg)
            && (forall r', c' {:trigger CellOf(s.1, r', c')} :: InHalo(sg, r', c') && (r', c') != (r, c) ==> CellOf(s.1, r', c') == CellOf(sg, r', c'))
  {
    var r, c := HaloRow(sg, a), HaloCol(sg, a);
    if CanConsume(sg, r, c) then
      var cell := CellOf(sg, r, c);
      var eaten := cell.(resource := cell.resource - Min(gain, cell.resource));
      SetCellFrame(sg, r, c, eaten);
      var energy := a.energy + gain;
      (a.(energy := energy, alive := !(energy <= 0.0)), SetCell(sg, r, c, eaten))
    else
      var energy := a.energy - loss;
      (a.(energy := energy, alive := !(energy <= 0.0)), sg)
  }

  /**
   `agent_decide`: a dead agent is untouched; a live one moves one step in
   the scanned direction and then does its bookkeeping there. The
   generator advances only through the scan's tie-breaks.
   */
  function AgentDecide(a: Agent, sg: SubGrid, rng: Rng.RngState, gain: real, loss: real): (s: Step)
    requires ValidSubGrid(sg)
    ensures !a.alive ==> s == Step(a, sg, rng)
    ensures ValidSubGrid(s.grid) && s.grid.localW == sg.localW && s.grid.localH == sg.localH
    ensures s.grid.offsetX == sg.offsetX && s.grid.offsetY == sg.offsetY
    ensures a.alive ==>
              var ch := Scan(sg, HaloRow(sg, a), HaloCol(sg, a), rng);
              var moved := a.(gx := a.gx + Dx[ch.dir], gy := a.gy + Dy[ch.dir]);
              var r, c := HaloRow(sg, moved), HaloCol(sg, moved);
              && s.agent.id == a.id && s.agent.gx == moved.gx && s.agent.gy == moved.gy
              && HaloRow(sg, moved) == TargetRow(HaloRow(sg, a), ch.dir)
              && HaloCol(sg, moved) == TargetCol(HaloCol(sg, a), ch.dir)
              && s.rng == ch.rng
              && (s.agent.alive <==> s.agent.energy > 0.0)
              && s.agent.energy == (if CanConsume(sg, r, c) then a.energy + gain else a.energy - loss)
              && (CanConsume(sg, r, c) ==> CellOf(s.grid, r, c).resource == CellOf(sg, r, c).resource - Min(gain, CellOf(sg, r, c).resource))
              && (forall r', c' {:trigger CellOf(s.grid, r', c')} :: InHalo(sg, r', c') && (r', c') != (r, c) ==> CellOf(s.grid, r', c') == CellOf(sg, r', c'))
  {
    if !a.alive then Step(a, sg, rng)
    else
      var ch := Scan(sg, HaloRow(sg, a), HaloCol(sg, a), rng);
      var moved := a.(gx := a.gx + Dx[ch.dir], gy := a.gy + Dy[ch.dir]);
      var after := Bookkeep(moved, sg, gain, loss);
      Step(after.0, after.1, ch.rng)
  }

  /** A step never makes a cell's resource negative: non-negative grids stay non-negative. */
  lemma DecideKeepsResourcesNonNegative(a: Agent, sg: SubGrid, rng: Rng.RngState, gain: real, loss: real)
    requires ValidSubGrid(sg) && NonNegativeResources(sg)
    ensures NonNegativeResources(AgentDecide(a, sg, rng, gain, loss).grid)
  {
    var s := AgentDecide(a, sg, rng, gain, loss);
    forall r, c | InHalo(s.grid, r, c)
      ensures CellOf(s.grid, r, c).resource >= 0.0
    {
      assert InHalo(sg, r, c);
    }
  }

  /** A live agent moves at most one cell on each axis. */
  lemma DecideMovesOneStep(a: Agent, sg: SubGrid, rng: Rng.RngState, gain: real, loss: real)
    requires ValidSubGrid(sg)
    ensures var b := AgentDecide(a, sg, rng, gain, loss).agent;
            -1 <= b.gx - a.gx <= 1 && -1 <= b.gy - a.gy <= 1 && b.id == a.id
  {
    if a.alive {
      var ch := Scan(sg, HaloRow(sg, a), HaloCol(sg, a), rng);
      var b := AgentDecide(a, sg, rng, gain, loss).agent;
      assert b.gx == a.gx + Dx[ch.dir] && b.gy == a.gy + Dy[ch.dir];
      DirectionsAreSteps(ch.dir);
    }
  }

  // ---------------------------------------------------------------------
  // One round over all agents
  // ---------------------------------------------------------------------

  /** The agents, the sub-grid and the generator after a round of decisions. */
  datatype Round = Round(agents: seq<Agent>, grid: SubGrid, rng: Rng.RngState)

  /** How one agent's decision changes the agent, the grid and the generator. */
  type Decider = (Agent, SubGrid, Rng.RngState) -> Step

  /**
   A round: the agents take `step` one after another, in index order, each
   seeing the grid and the generator as the earlier ones left them.
   */
  function RoundWith(agents: seq<Agent>, sg: SubGrid, rng: Rng.RngState, step: Decider): (r: Round)
    decreases |agents|
    ensures |r.agents| == |agents|
  {
    if |agents| == 0 then Round([], sg, rng)
    else
      var s := step(agents[0], sg, rng);
      var rest := RoundWith(agents[1..], s.grid, s.rng, step);
      Round([s.agent] + rest.agents, rest.grid, rest.rng)
  }

  /** A round over `a + b` is a round over `a` followed by a round over `b` from where it left off. */
  lemma {:induction false} RoundSplit(a: seq<Agent>, b: seq<Agent>, sg: SubGrid, rng: Rng.RngState, step: Decider)
    decreases |a|
    ensures SplitHolds(a, b, sg, rng, step)
  {
    if |a| == 0 {
      assert a + b == b;
    } else {
      var s := step(a[0], sg, rng);
      RoundSplit(a[1..], b, s.grid, s.rng, step);
      SplitStep(a, b, sg, rng, step);
    }
  }

  /** The round over `a + b` agrees with the round over `a` followed by the round over `b`. */
  predicate SplitHolds(a: seq<Agent>, b: seq<Agent>, sg: SubGrid, rng: Rng.RngState, step: Decider) {
    var ra := RoundWith(a, sg, rng, step);
    var rb := RoundWith(b, ra.grid, ra.rng, step);
    var rab := RoundWith(a + b, sg, rng, step);
    rab.agents == ra.agents + rb.agents && rab.grid == rb.grid && rab.rng == rb.rng
  }

  /** The split holds for `a` once it holds for `a` without its first agent, from the state that agent leaves. */
  lemma SplitStep(a: seq<Agent>, b: seq<Agent>, sg: SubGrid, rng: Rng.RngState, step: Decider)
    requires |a| > 0
    requires var s := step(a[0], sg, rng); SplitHolds(a[1..], b, s.grid, s.rng, step)
    ensures SplitHolds(a, b, sg, rng, step)
  {
    var s := step(a[0], sg, rng);
    var ra' := RoundWith(a[1..], s.grid, s.rng, step);
    var rb := RoundWith(b, ra'.grid, ra'.rng, step);
    var ab := a + b;
    assert ab[0] == a[0] && ab[1..] == a[1..] + b;
    assert [s.agent] + (ra'.agents + rb.agents) == ([s.agent] + ra'.agents) + rb.agents;
  }

  /**
   Agent k ends the round as `step` leaves it when applied in the state
   the agents before it produced: later agents never touch it.
   */
  lemma RoundAt(agents: seq<Agent>, sg: SubGrid, rng: Rng.RngState, step: Decider, k: int)
    requires 0 <= k < |agents|
    ensures var pre := RoundWith(agents[..k], sg, rng, step);
            RoundWith(agents, sg, rng, step).agents[k] == step(agents[k], pre.grid, pre.rng).agent
  {
    var pre := RoundWith(agents[..k], sg, rng, step);
    assert agents == agents[..k] + agents[k..];
    RoundSplit(agents[..k], agents[k..], sg, rng, step);
    assert agents[k..][0] == agents[k];
  }

  /** `agent_decide` as a round's step; a grid without the sub-grid shape (which no round produces) is left alone. */
  function Decide(gain: real, loss: real): Decider {
    (a: Agent, sg: SubGrid, rng: Rng.RngState) =>
      if ValidSubGrid(sg) then AgentDecide(a, sg, rng, gain, loss) else Step(a, sg, rng)
  }

  /** Decisions keep the sub-grid's shape and placement for the whole round. */
  lemma {:induction false} RoundKeepsShape(agents: seq<Agent>, sg: SubGrid, rng: Rng.RngState, gain: real, loss: real)
    requires ValidSubGrid(sg)
    decreases |agents|
    ensures var g := RoundWith(agents, sg, rng, Decide(gain, loss)).grid;
            && ValidSubGrid(g) && g.localW == sg.localW && g.localH == sg.localH
            && g.offsetX == sg.offsetX && g.offsetY == sg.offsetY
  {
    if |agents| > 0 {
      var s := Decide(gain, loss)(agents[0], sg, rng);
      assert s == AgentDecide(agents[0], sg, rng, gain, loss);
      RoundKeepsShape(agents[1..], s.grid, s.rng, gain, loss);
    }
  }

  /** `agents_process` on one thread: a round of `agent_decide` steps. */
  function ProcessAll(agents: seq<Agent>, sg: SubGrid, rng: Rng.RngState, gain: real, loss: real): (r: Round)
    requires ValidSubGrid(sg)
    ensures |r.agents| == |agents|
    ensures ValidSubGrid(r.grid) && r.grid.localW == sg.localW && r.grid.localH == sg.localH
    ensures r.grid.offsetX == sg.offsetX && r.grid.offsetY == sg.offsetY
  {
    RoundKeepsShape(agents, sg, rng, gain, loss);
    RoundWith(agents, sg, rng, Decide(gain, loss))
  }

  /**
   In a round dead agents are skipped; every live one keeps its id, moves
   at most one cell, gains `gain` or loses `loss`, and stays alive exactly
   while its energy is positive.
   */
  lemma ProcessAllSteps(agents: seq<Agent>, sg: SubGrid, rng: Rng.RngState, gain: real, loss: real, k: int)
    requires ValidSubGrid(sg) && 0 <= k < |agents|
    ensures var a, b := agents[k], ProcessAll(agents, sg, rng, gain, loss).agents[k];
            && (!a.alive ==> b == a)
            && (a.alive ==>
                  && b.id == a.id
                  && -1 <= b.gx - a.gx <= 1 && -1 <= b.gy - a.gy <= 1
                  && (b.alive <==> b.energy > 0.0)
                  && (b.energy == a.energy + gain || b.energy == a.energy - loss))
  {
    var pre := RoundWith(agents[..k], sg, rng, Decide(gain, loss));
    RoundAt(agents, sg, rng, Decide(gain, loss), k);
    RoundKeepsShape(agents[..k], sg, rng, gain, loss);
    assert Decide(gain, loss)(agents[k], pre.grid, pre.rng) == AgentDecide(agents[k], pre.grid, pre.rng, gain, loss);
    DecideMovesOneStep(agents[k], pre.grid, pre.rng, gain, loss);
  }

  /** A round over `a + b` is a round over `a` followed by a round over `b` from where it left off. */
  lemma ProcessSplit(a: seq<Agent>, b: seq<Agent>, sg: SubGrid, rng: Rng.RngState, gain: real, loss: real)
    requires ValidSubGrid(sg)
    ensures var ra := ProcessAll(a, sg, rng, gain, loss);
            var rb := ProcessAll(b, ra.grid, ra.rng, gain, loss);
            var rab := ProcessAll(a + b, sg, rng, gain, loss);
            rab.agents == ra.agents + rb.agents && rab.grid == rb.grid && rab.rng == rb.rng
  {
    RoundSplit(a, b, sg, rng, Decide(gain, loss));
  }

  /** A round never makes a cell's resource negative. */
  lemma {:induction false} ProcessKeepsResourcesNonNegative(agents: seq<Agent>, sg: SubGrid, rng: Rng.RngState, gain: real, loss: real)
    requires ValidSubGrid(sg) && NonNegativeResources(sg)
    decreases |agents|
    ensures NonNegativeResources(ProcessAll(agents, sg, rng, gain, loss).grid)
  {
    if |agents| > 0 {
      var s := Decide(gain, loss)(agents[0], sg, rng);
      assert s == AgentDecide(agents[0], sg, rng, gain, loss);
      DecideKeepsResourcesNonNegative(agents[0], sg, rng, gain, loss);
      ProcessKeepsResourcesNonNegative(agents[1..], s.grid, s.rng, gain, loss);
    }
  }

  /** Energy gained for eating and lost otherwise, fixed at the configured defaults. */
  const DefaultEnergyGain: real := 0.3
  const DefaultEnergyLoss: real := 0.4

  /** The generator of OpenMP thread `tid`: seeded from `seed ^ ((tid + 1) * 2654435761)`. */
  function ThreadRng(seed: bv64, tid: nat): (s: Rng.RngState)
    ensures s != 0
  {
    Rng.Seed(seed ^ CArith.MulU64(tid + 1, 2654435761))
  }

  /**
   `agents_process` with one thread: a round with thread 0's generator and
   the default gain and loss. The synthetic workload changes no state.
   */
  function AgentsProcess(agents: seq<Agent>, sg: SubGrid, seed: bv64): (r: Round)
    requires ValidSubGrid(sg)
    ensures |r.agents| == |agents| && ValidSubGrid(r.grid)
  {
    ProcessAll(agents, sg, ThreadRng(seed, 0), DefaultEnergyGain, DefaultEnergyLoss)
  }

  /** Under `agents_process` a live agent gains 0.3 energy or loses 0.4, and dead agents stay as they were. */
  lemma AgentsProcessEnergy(agents: seq<Agent>, sg: SubGrid, seed: bv64, k: int)
    requires ValidSubGrid(sg) && 0 <= k < |agents|
    ensures var a, b := agents[k], AgentsProcess(agents, sg, seed).agents[k];
            && (!a.alive ==> b == a)
            && (a.alive ==> b.id == a.id && (b.alive <==> b.energy > 0.0)
                            && (b.energy == a.energy + 0.3 || b.energy == a.energy - 0.4))
  {
    ProcessAllSteps(agents, sg, ThreadRng(seed, 0), DefaultEnergyGain, DefaultEnergyLoss, k);
  }
}
