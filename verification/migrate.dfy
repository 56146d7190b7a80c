/**
 The local half of agent migration: classify the live agents that left this
 rank's box by destination, lay out counts and displacements, pack the send
 buffer, drop the migrants and the dead, grow the capacity and append what
 was received. The two all-to-all exchanges are not modelled; the agents
 received from each rank are an input.
 */
module Migration {
  import opened Types
  import Partitioning

  /** What a rank knows while migrating: its partition, its sub-grid and the global size. */
  datatype Ctx = Ctx(p: Partition, sg: SubGrid, globalW: int, globalH: int)

  predicate ValidCtx(ctx: Ctx) {
    Partitioning.ValidPartition(ctx.p) && ctx.globalW >= 0 && ctx.globalH >= 0
  }

  /** The agent stands on the global grid. */
  predicate OnGrid(ctx: Ctx, a: Agent) {
    0 <= a.gx < ctx.globalW && 0 <= a.gy < ctx.globalH
  }

  /** Every live agent stands on the global grid (the lookup needs it). */
  predicate LiveOnGrid(ctx: Ctx, agents: seq<Agent>) {
    forall k :: 0 <= k < |agents| && agents[k].alive ==> OnGrid(ctx, agents[k])
  }

  /** The rank's region as the inclusive box [x0, x1] x [y0, y1]. */
  predicate InBox(ctx: Ctx, a: Agent) {
    var x0, y0 := ctx.sg.offsetX, ctx.sg.offsetY;
    var x1, y1 := x0 + ctx.sg.localW - 1, y0 + ctx.sg.localH - 1;
    x0 <= a.gx <= x1 && y0 <= a.gy <= y1
  }

  /** The inclusive box is the half-open ownership box. */
  lemma InBoxIsOwnership(ctx: Ctx, a: Agent)
    ensures InBox(ctx, a) <==> Partitioning.OwnsGlobal(ctx.sg, a.gx, a.gy)
  {
  }

  /** The rank that owns the agent's cell. */
  function Dest(ctx: Ctx, a: Agent): (r: int)
    requires ValidCtx(ctx) && OnGrid(ctx, a)
    ensures 0 <= r < ctx.p.size
  {
    Partitioning.OwnerRank(ctx.p, a.gx, a.gy, ctx.globalW, ctx.globalH)
  }

  /** When every block is non-empty, `Dest` is what `partition_rank_for_global` returns. */
  lemma DestIsLookup(ctx: Ctx, a: Agent)
    requires ValidCtx(ctx) && OnGrid(ctx, a)
    requires Partitioning.AxisBase(ctx.globalW, ctx.p.px) > 0 && Partitioning.AxisBase(ctx.globalH, ctx.p.py) > 0
    ensures Dest(ctx, a) == Partitioning.RankForGlobal(Partitioning.Mpi, ctx.p, a.gx, a.gy, ctx.globalW, ctx.globalH)
  {
    Partitioning.RankForGlobalIsOwner(ctx.p, a.gx, a.gy, ctx.globalW, ctx.globalH);
  }

  /**
   An agent migrates: alive, outside the box, and owned by another rank.
   */
  predicate Leaves(ctx: Ctx, a: Agent)
    requires ValidCtx(ctx) && (a.alive ==> OnGrid(ctx, a))
  {
    a.alive && !InBox(ctx, a) && Dest(ctx, a) != ctx.p.rank
  }

  /**
   On a sub-grid placed by its own partition, an agent outside the box is
   always owned by another rank, so with the corrected lookup `Dest` the
   "still local" branch never fires. With the written lookup it can: see
   `SourceDestMisroutes`.
   */
  lemma OutsideMeansElsewhere(ctx: Ctx, a: Agent)
    requires ValidCtx(ctx) && OnGrid(ctx, a)
    requires Partitioning.PlacedBy(ctx.sg, ctx.p, ctx.globalW, ctx.globalH)
    requires ctx.p.rank == Partitioning.CartRank(ctx.p.px, ctx.p.myRow, ctx.p.myCol)
    ensures !InBox(ctx, a) <==> Dest(ctx, a) != ctx.p.rank
  {
    var p := ctx.p;
    var rc := Partitioning.OwnerCoords(p, a.gx, a.gy, ctx.globalW, ctx.globalH);
    Partitioning.OwnsIffOwner(p, ctx.sg, a.gx, a.gy, ctx.globalW, ctx.globalH);
    if Dest(ctx, a) == p.rank {
      Partitioning.CartRankInjective(p.px, p.py, rc.0, rc.1, p.myRow, p.myCol);
    }
  }

  /**
   The destination `migrate_agents` computes: `partition_rank_for_global`
   as written, which agrees with `Dest` when every block is non-empty.
   */
  function SourceDest(ctx: Ctx, a: Agent): (r: int)
    requires ValidCtx(ctx) && OnGrid(ctx, a)
    ensures 0 <= r < ctx.p.size
  {
    Partitioning.RankForGlobal(Partitioning.Mpi, ctx.p, a.gx, a.gy, ctx.globalW, ctx.globalH)
  }

  /**
   Eight ranks over a 3 by 2 grid make a 4 by 2 process grid, so
   `global_w / px == 0` and process columns 0..2 own no cells. An agent that
   leaves rank 3 (row 0, column 3) for cell (0, 1) is sent by the written
   lookup to rank 4, whose block is empty, while rank 7 owns the cell. On
   rank 4 the agent is outside the (empty) box, yet the lookup names rank 4
   itself, so the "still local" branch keeps it there.
   */
  lemma SourceDestMisroutes()
    ensures var p3 := Partition(4, 2, 0, 3, 3, 8, seq(8, _ => Partitioning.ProcNull));
            var p4 := p3.(myRow := 1, myCol := 0, rank := 4);
            var c3 := Ctx(p3, SubGrid(3, 1, 0, 0, 5, 3, []), 3, 2);
            var c4 := Ctx(p4, SubGrid(0, 1, 0, 1, 2, 3, []), 3, 2);
            var a := Agent(0, 0, 1, 1.0, true);
            && ValidCtx(c3) && ValidCtx(c4) && OnGrid(c3, a)
            && Partitioning.PlacedBy(c3.sg, p3, 3, 2) && Partitioning.PlacedBy(c4.sg, p4, 3, 2)
            && Partitioning.AxisLen(3, 4, 0) == 0
            && !InBox(c3, a) && SourceDest(c3, a) == 4 && Dest(c3, a) == 7
            && !InBox(c4, a) && SourceDest(c4, a) == c4.p.rank && Dest(c4, a) == 7
  {
    assert Partitioning.AxisHolds(3, 4, 3, 0);
    assert Partitioning.AxisHolds(2, 2, 1, 1);
  }

  // ---------------------------------------------------------------------
  // Classification
  // ---------------------------------------------------------------------

  /** Indices below n of the agents that migrate to rank r, in index order. */
  function SentIdx(ctx: Ctx, agents: seq<Agent>, n: int, r: int): (s: seq<int>)
    requires ValidCtx(ctx) && LiveOnGrid(ctx, agents) && 0 <= n <= |agents|
    ensures forall k :: 0 <= k < |s| ==> 0 <= s[k] < n
  {
    if n == 0 then []
    else
      var a := agents[n - 1];
      SentIdx(ctx, agents, n - 1, r) + (if Leaves(ctx, a) && Dest(ctx, a) == r then [n - 1] else [])
  }

  /**
   The list for rank r holds exactly the indices of the agents migrating
   to r, strictly increasing; so a dead agent is never listed.
   */
  lemma {:induction false} SentIdxExact(ctx: Ctx, agents: seq<Agent>, n: int, r: int)
    requires ValidCtx(ctx) && LiveOnGrid(ctx, agents) && 0 <= n <= |agents|
    ensures var s := SentIdx(ctx, agents, n, r);
            && (forall k :: 0 <= k < |s| ==> 0 <= s[k] < n && Leaves(ctx, agents[s[k]]) && Dest(ctx, agents[s[k]]) == r)
            && Increasing(s)
            && (forall i :: 0 <= i < n && Leaves(ctx, agents[i]) && Dest(ctx, agents[i]) == r ==> i in s)
  {
    SentIdxSound(ctx, agents, n, r);
    SentIdxSorted(ctx, agents, n, r);
    SentIdxComplete(ctx, agents, n, r);
  }

  /** One more agent extends the list for r by its index exactly when it migrates to r. */
  lemma SentIdxStep(ctx: Ctx, agents: seq<Agent>, n: int, r: int)
    requires ValidCtx(ctx) && LiveOnGrid(ctx, agents) && 0 < n <= |agents|
    ensures var a := agents[n - 1];
            SentIdx(ctx, agents, n, r)
            == SentIdx(ctx, agents, n - 1, r) + (if Leaves(ctx, a) && Dest(ctx, a) == r then [n - 1] else [])
  {
  }

  /** Every listed index belongs to an agent migrating to r. */
  lemma {:induction false} SentIdxSound(ctx: Ctx, agents: seq<Agent>, n: int, r: int)
    requires ValidCtx(ctx) && LiveOnGrid(ctx, agents) && 0 <= n <= |agents|
    ensures var s := SentIdx(ctx, agents, n, r);
            forall k :: 0 <= k < |s| ==> 0 <= s[k] < n && Leaves(ctx, agents[s[k]]) && Dest(ctx, agents[s[k]]) == r
  {
    if n > 0 {
      SentIdxSound(ctx, agents, n - 1, r);
      SentIdxStep(ctx, agents, n, r);
      var s' := SentIdx(ctx, agents, n - 1, r);
      var s := SentIdx(ctx, agents, n, r);
      forall k | 0 <= k < |s|
        ensures 0 <= s[k] < n && Leaves(ctx, agents[s[k]]) && Dest(ctx, agents[s[k]]) == r
      {
        if k < |s'| {
          assert s[k] == s'[k];
        } else {
          assert s[k] == n - 1;
        }
      }
    }
  }

  /** The indices are strictly increasing. */
  predicate Increasing(s: seq<int>) {
    forall k1, k2 :: 0 <= k1 < k2 < |s| ==> s[k1] < s[k2]
  }

  /** Appending an index above all others keeps a list increasing. */
  lemma IncreasingAppend(s: seq<int>, x: int)
    requires Increasing(s) && forall k :: 0 <= k < |s| ==> s[k] < x
    ensures Increasing(s + [x])
  {
    var t := s + [x];
    forall k1, k2 | 0 <= k1 < k2 < |t|
      ensures t[k1] < t[k2]
    {
      assert t[k1] == s[k1];
    }
  }

  /** The list is strictly increasing. */
  lemma {:induction false} SentIdxSorted(ctx: Ctx, agents: seq<Agent>, n: int, r: int)
    requires ValidCtx(ctx) && LiveOnGrid(ctx, agents) && 0 <= n <= |agents|
    ensures Increasing(SentIdx(ctx, agents, n, r))
  {
    if n > 0 {
      SentIdxSorted(ctx, agents, n - 1, r);
      SentIdxStep(ctx, agents, n, r);
      var a := agents[n - 1];
      if Leaves(ctx, a) && Dest(ctx, a) == r {
        IncreasingAppend(SentIdx(ctx, agents, n - 1, r), n - 1);
      }
    }
  }

  /** Every agent below n migrating to r is listed. */
  lemma {:induction false} SentIdxComplete(ctx: Ctx, agents: seq<Agent>, n: int, r: int)
    requires ValidCtx(ctx) && LiveOnGrid(ctx, agents) && 0 <= n <= |agents|
    ensures var s := SentIdx(ctx, agents, n, r);
            forall i :: 0 <= i < n && Leaves(ctx, agents[i]) && Dest(ctx, agents[i]) == r ==> i in s
  {
    if n > 0 {
      SentIdxComplete(ctx, agents, n - 1, r);
      SentIdxStep(ctx, agents, n, r);
      var s' := SentIdx(ctx, agents, n - 1, r);
      var s := SentIdx(ctx, agents, n, r);
      forall i | 0 <= i < n && Leaves(ctx, agents[i]) && Dest(ctx, agents[i]) == r
        ensures i in s
      {
        if i < n - 1 {
          assert i in s';
        } else {
          assert s[|s'|] == i;
        }
      }
    }
  }

  /** Number of agents below n that stay: alive and not migrating. */
  function StayCount(ctx: Ctx, agents: seq<Agent>, n: int): nat
    requires ValidCtx(ctx) && LiveOnGrid(ctx, agents) && 0 <= n <= |agents|
  {
    if n == 0 then 0
    else StayCount(ctx, agents, n - 1) + (if agents[n - 1].alive && !Leaves(ctx, agents[n - 1]) then 1 else 0)
  }

  /**
   Phase 0 of `migrate_agents`: one pass over the agents, skipping the dead,
   counting those that stay, and appending each migrant's index to the
   list of its destination.
   */
  method Classify(ctx: Ctx, agents: seq<Agent>) returns (sendCounts: seq<int>, perRank: seq<seq<int>>, stay: int)
    requires ValidCtx(ctx) && LiveOnGrid(ctx, agents)
    ensures |sendCounts| == |perRank| == ctx.p.size
    ensures forall r :: 0 <= r < ctx.p.size ==>
              perRank[r] == SentIdx(ctx, agents, |agents|, r) && sendCounts[r] == |perRank[r]|
    ensures stay == StayCount(ctx, agents, |agents|)
  {
    var size := ctx.p.size;
    sendCounts := seq(size, _ => 0);
    perRank := seq(size, _ => []);
    stay := 0;
    var i := 0;
    while i < |agents|
      invariant 0 <= i <= |agents|
      invariant |sendCounts| == |perRank| == size
      invariant forall r :: 0 <= r < size ==>
                  perRank[r] == SentIdx(ctx, agents, i, r) && sendCounts[r] == |perRank[r]|
      invariant stay == StayCount(ctx, agents, i)
    {
      var a := agents[i];
      if !a.alive {
      } else if InBox(ctx, a) {
        stay := stay + 1;
      } else {
        var dest := Dest(ctx, a);
        if dest == ctx.p.rank {
          stay := stay + 1;
        } else {
          perRank := perRank[dest := perRank[dest] + [i]];
          sendCounts := sendCounts[dest := sendCounts[dest] + 1];
        }
      }
      i := i + 1;
    }
  }

  // ---------------------------------------------------------------------
  // Counts, displacements and buffers
  // ---------------------------------------------------------------------

  function Sum(s: seq<int>): int {
    if |s| == 0 then 0 else Sum(s[..|s| - 1]) + s[|s| - 1]
  }

  /**
   The displacement loop: each rank's displacement is the sum of the
   counts before it (an exclusive prefix sum), and the total is the sum of
   all counts.
   */
  method Displacements(counts: seq<int>) returns (displs: seq<int>, total: int)
    ensures |displs| == |counts| && total == Sum(counts)
    ensures forall r :: 0 <= r < |counts| ==> displs[r] == Sum(counts[..r])
    ensures |counts| > 0 ==> displs[0] == 0
    ensures forall r :: 0 <= r < |counts| - 1 ==> displs[r + 1] == displs[r] + counts[r]
    ensures |counts| > 0 ==> total == displs[|counts| - 1] + counts[|counts| - 1]
  {
    displs := [];
    total := 0;
    var r := 0;
    while r < |counts|
      invariant 0 <= r <= |counts| && |displs| == r
      invariant total == Sum(counts[..r])
      invariant forall q :: 0 <= q < r ==> displs[q] == Sum(counts[..q])
    {
      assert counts[..r + 1][..r] == counts[..r];
      displs := displs + [total];
      total := total + counts[r];
      r := r + 1;
    }
    assert counts[..|counts|] == counts;
    forall q | 0 <= q < |counts| - 1
      ensures displs[q + 1] == displs[q] + counts[q]
    {
      assert counts[..q + 1][..q] == counts[..q];
    }
  }

  /** Every listed index is in [0, n). */
  predicate IndicesBelow(idx: seq<int>, n: int) {
    forall k :: 0 <= k < |idx| ==> 0 <= idx[k] < n
  }

  /** The agents at the listed indices, in list order. */
  function Pick(agents: seq<Agent>, idx: seq<int>): (s: seq<Agent>)
    requires IndicesBelow(idx, |agents|)
    ensures |s| == |idx| && forall k :: 0 <= k < |idx| ==> s[k] == agents[idx[k]]
  {
    seq(|idx|, k requires 0 <= k < |idx| => agents[idx[k]])
  }

  /** Blocks laid end to end. */
  function Flatten<T>(blocks: seq<seq<T>>): seq<T> {
    if |blocks| == 0 then [] else Flatten(blocks[..|blocks| - 1]) + blocks[|blocks| - 1]
  }

  /** Block lengths. */
  function Lens<T>(blocks: seq<seq<T>>): (l: seq<int>)
    ensures |l| == |blocks| && forall r :: 0 <= r < |blocks| ==> l[r] == |blocks[r]|
  {
    seq(|blocks|, r requires 0 <= r < |blocks| => |blocks[r]|)
  }

  /** A flattened buffer is as long as its blocks together. */
  lemma {:induction false} FlattenLength<T>(blocks: seq<seq<T>>)
    ensures |Flatten(blocks)| == Sum(Lens(blocks))
  {
    if |blocks| > 0 {
      var init := blocks[..|blocks| - 1];
      FlattenLength(init);
      assert Lens(blocks)[..|blocks| - 1] == Lens(init);
    }
  }

  /**
   Block r of a flattened buffer starts at the sum of the lengths before it:
   the layout `MPI_Alltoallv` reads with exclusive-prefix displacements.
   */
  lemma {:induction false} FlattenAt<T>(blocks: seq<seq<T>>, r: int, j: int)
    requires 0 <= r < |blocks| && 0 <= j < |blocks[r]|
    ensures 0 <= Sum(Lens(blocks)[..r]) + j < |Flatten(blocks)|
    ensures Flatten(blocks)[Sum(Lens(blocks)[..r]) + j] == blocks[r][j]
  {
    var n := |blocks|;
    var init := blocks[..n - 1];
    FlattenLength(init);
    assert Lens(blocks)[..n - 1] == Lens(init);
    assert Flatten(blocks) == Flatten(init) + blocks[n - 1];
    if r < n - 1 {
      FlattenAt(init, r, j);
      assert Lens(blocks)[..r] == Lens(init)[..r];
    } else {
      SumNonNegative(Lens(init));
    }
  }

  /** Lengths never sum to a negative number. */
  lemma {:induction false} SumNonNegative(s: seq<int>)
    requires forall k :: 0 <= k < |s| ==> s[k] >= 0
    ensures Sum(s) >= 0
  {
    if |s| > 0 {
      SumNonNegative(s[..|s| - 1]);
    }
  }

  /** Prefix sums of non-negative entries lie between 0 and the full sum. */
  lemma {:induction false} PrefixSumBounds(s: seq<int>, r: int)
    requires forall k :: 0 <= k < |s| ==> s[k] >= 0
    requires 0 <= r <= |s|
    ensures 0 <= Sum(s[..r]) <= Sum(s)
  {
    SumNonNegative(s[..r]);
    if r < |s| {
      var init := s[..|s| - 1];
      assert s[..r] == init[..r];
      PrefixSumBounds(init, r);
    } else {
      assert s[..r] == s;
    }
  }

  /**
   Block r of a flattened buffer is the slice that starts at the sum of
   the lengths before it: the layout `MPI_Alltoallv` reads with
   exclusive-prefix displacements.
   */
  lemma FlattenBlock<T>(blocks: seq<seq<T>>, r: int)
    requires 0 <= r < |blocks|
    ensures var d := Sum(Lens(blocks)[..r]);
            && 0 <= d && d + |blocks[r]| <= |Flatten(blocks)|
            && Flatten(blocks)[d .. d + |blocks[r]|] == blocks[r]
  {
    var lens := Lens(blocks);
    var d := Sum(lens[..r]);
    FlattenLength(blocks);
    PrefixSumBounds(lens, r + 1);
    PrefixSumBounds(lens, r);
    assert lens[..r + 1][..r] == lens[..r];
    assert Sum(lens[..r + 1]) == d + |blocks[r]|;
    var flat := Flatten(blocks);
    forall j | 0 <= j < |blocks[r]|
      ensures flat[d .. d + |blocks[r]|][j] == blocks[r][j]
    {
      FlattenAt(blocks, r, j);
    }
  }

  /** Rank r's block of the send buffer: the agents at its listed indices. */
  function Blocks(agents: seq<Agent>, perRank: seq<seq<int>>): (b: seq<seq<Agent>>)
    requires forall r :: 0 <= r < |perRank| ==> IndicesBelow(perRank[r], |agents|)
    ensures |b| == |perRank| && forall r :: 0 <= r < |perRank| ==> b[r] == Pick(agents, perRank[r])
  {
    seq(|perRank|, r requires 0 <= r < |perRank| => Pick(agents, perRank[r]))
  }

  /**
   Packing: for r = 0 .. size-1, the agents at rank r's indices, block
   after block.
   */
  method Pack(agents: seq<Agent>, perRank: seq<seq<int>>) returns (buf: seq<Agent>)
    requires forall r :: 0 <= r < |perRank| ==> IndicesBelow(perRank[r], |agents|)
    ensures buf == Flatten(Blocks(agents, perRank))
  {
    ghost var blocks := Blocks(agents, perRank);
    buf := [];
    var r := 0;
    while r < |perRank|
      invariant 0 <= r <= |perRank|
      invariant buf == Flatten(blocks[..r])
    {
      var j := 0;
      while j < |perRank[r]|
        invariant 0 <= j <= |perRank[r]|
        invariant buf == Flatten(blocks[..r]) + blocks[r][..j]
      {
        buf := buf + [agents[perRank[r][j]]];
        j := j + 1;
      }
      assert blocks[..r + 1][..r] == blocks[..r];
      assert blocks[r][..j] == blocks[r];
      r := r + 1;
    }
    assert blocks[..|perRank|] == blocks;
  }

  // ---------------------------------------------------------------------
  // Compaction
  // ---------------------------------------------------------------------

  /** The agents below n that stay, in their original order. */
  function Survivors(ctx: Ctx, agents: seq<Agent>, n: int): seq<Agent>
    requires ValidCtx(ctx) && LiveOnGrid(ctx, agents) && 0 <= n <= |agents|
  {
    if n == 0 then []
    else
      var a := agents[n - 1];
      Survivors(ctx, agents, n - 1) + (if a.alive && !Leaves(ctx, a) then [a] else [])
  }

  /**
   Survivors are exactly the live non-migrating agents, as many as the
   classification counted, each still alive.
   */
  lemma {:induction false} SurvivorsExact(ctx: Ctx, agents: seq<Agent>, n: int)
    requires ValidCtx(ctx) && LiveOnGrid(ctx, agents) && 0 <= n <= |agents|
    ensures |Survivors(ctx, agents, n)| == StayCount(ctx, agents, n)
    ensures forall a :: a in Survivors(ctx, agents, n) <==>
              exists i :: 0 <= i < n && agents[i] == a && a.alive && !Leaves(ctx, a)
  {
    if n > 0 {
      SurvivorsExact(ctx, agents, n - 1);
      var a := agents[n - 1];
      if a.alive && !Leaves(ctx, a) {
        assert a in Survivors(ctx, agents, n);
      }
    }
  }

  /** The live agents of a sequence, in order. */
  function LiveOnes(s: seq<Agent>): seq<Agent> {
    if |s| == 0 then [] else LiveOnes(s[..|s| - 1]) + (if s[|s| - 1].alive then [s[|s| - 1]] else [])
  }

  /** Index i appears in one of the first n lists. */
  predicate Listed(lists: seq<seq<int>>, n: int, i: int)
    requires 0 <= n <= |lists|
  {
    n > 0 && (Listed(lists, n - 1, i) || i in lists[n - 1])
  }

  lemma {:induction false} ListedMeans(lists: seq<seq<int>>, n: int, i: int)
    requires 0 <= n <= |lists|
    ensures Listed(lists, n, i) <==> exists r, k :: 0 <= r < n && 0 <= k < |lists[r]| && lists[r][k] == i
  {
    if n > 0 {
      ListedMeans(lists, n - 1, i);
      if i in lists[n - 1] {
        var k :| 0 <= k < |lists[n - 1]| && lists[n - 1][k] == i;
        assert 0 <= n - 1 < n;
      }
    }
  }

  /** An index is in some destination list iff its agent migrates. */
  lemma ListedIffLeaves(ctx: Ctx, agents: seq<Agent>, perRank: seq<seq<int>>, i: int)
    requires ValidCtx(ctx) && LiveOnGrid(ctx, agents) && 0 <= i < |agents|
    requires |perRank| == ctx.p.size
    requires forall r :: 0 <= r < ctx.p.size ==> perRank[r] == SentIdx(ctx, agents, |agents|, r)
    ensures Listed(perRank, |perRank|, i) <==> Leaves(ctx, agents[i])
  {
    ListedMeans(perRank, |perRank|, i);
    if Listed(perRank, |perRank|, i) {
      var r, k :| 0 <= r < |perRank| && 0 <= k < |perRank[r]| && perRank[r][k] == i;
      SentIdxExact(ctx, agents, |agents|, r);
    }
    if Leaves(ctx, agents[i]) {
      var r := Dest(ctx, agents[i]);
      SentIdxExact(ctx, agents, |agents|, r);
      var k :| 0 <= k < |perRank[r]| && perRank[r][k] == i;
    }
  }

  /** The marking loops: every listed agent is set dead, nothing else changes. */
  method MarkListed(agents: seq<Agent>, perRank: seq<seq<int>>) returns (ag: seq<Agent>)
    requires forall r :: 0 <= r < |perRank| ==> IndicesBelow(perRank[r], |agents|)
    ensures |ag| == |agents|
    ensures forall i :: 0 <= i < |ag| ==>
              ag[i] == agents[i].(alive := agents[i].alive && !Listed(perRank, |perRank|, i))
  {
    ag := agents;
    var r := 0;
    while r < |perRank|
      invariant 0 <= r <= |perRank| && |ag| == |agents|
      invariant forall i :: 0 <= i < |ag| ==> ag[i] == agents[i].(alive := agents[i].alive && !Listed(perRank, r, i))
    {
      var j := 0;
      while j < |perRank[r]|
        invariant 0 <= j <= |perRank[r]| && |ag| == |agents|
        invariant forall i :: 0 <= i < |ag| ==>
                    ag[i] == agents[i].(alive := agents[i].alive && !Listed(perRank, r, i) && i !in perRank[r][..j])
      {
        var idx := perRank[r][j];
        assert perRank[r][..j + 1] == perRank[r][..j] + [idx];
        ag := ag[idx := ag[idx].(alive := false)];
        j := j + 1;
      }
      assert perRank[r][..j] == perRank[r];
      r := r + 1;
    }
  }

  /** The compaction loop: the live agents moved to the front, in order. */
  method CompactLive(ag: seq<Agent>) returns (kept: seq<Agent>)
    ensures kept == LiveOnes(ag)
    ensures forall k :: 0 <= k < |kept| ==> kept[k].alive
  {
    kept := [];
    var i := 0;
    while i < |ag|
      invariant 0 <= i <= |ag|
      invariant kept == LiveOnes(ag[..i])
      invariant forall k :: 0 <= k < |kept| ==> kept[k].alive
    {
      assert ag[..i + 1][..i] == ag[..i];
      if ag[i].alive {
        kept := kept + [ag[i]];
      }
      i := i + 1;
    }
    assert ag[..|ag|] == ag;
  }

  /** Compacting the marked array gives the survivors. */
  lemma {:induction false} MarkedSurvivors(ctx: Ctx, agents: seq<Agent>, marked: seq<Agent>, n: int)
    requires ValidCtx(ctx) && LiveOnGrid(ctx, agents) && 0 <= n <= |agents| == |marked|
    requires forall i :: 0 <= i < |marked| ==>
               marked[i] == agents[i].(alive := agents[i].alive && !Leaves(ctx, agents[i]))
    ensures LiveOnes(marked[..n]) == Survivors(ctx, agents, n)
  {
    if n > 0 {
      assert marked[..n][..n - 1] == marked[..n - 1];
      MarkedSurvivors(ctx, agents, marked, n - 1);
    }
  }

  /**
   Marking every listed agent dead and then compacting the live agents to
   the front leaves exactly the survivors in their original order.
   */
  method Compact(ctx: Ctx, agents: seq<Agent>, perRank: seq<seq<int>>) returns (kept: seq<Agent>)
    requires ValidCtx(ctx) && LiveOnGrid(ctx, agents)
    requires |perRank| == ctx.p.size
    requires forall r :: 0 <= r < ctx.p.size ==> perRank[r] == SentIdx(ctx, agents, |agents|, r)
    ensures kept == Survivors(ctx, agents, |agents|)
  {
    forall r | 0 <= r < |perRank| {
      SentIdxExact(ctx, agents, |agents|, r);
    }
    var marked := MarkListed(agents, perRank);
    forall i | 0 <= i < |agents| {
      ListedIffLeaves(ctx, agents, perRank, i);
    }
    kept := CompactLive(marked);
    MarkedSurvivors(ctx, agents, marked, |agents|);
    assert marked[..|agents|] == marked;
  }

  // ---------------------------------------------------------------------
  // Capacity and the whole local migration
  // ---------------------------------------------------------------------

  function Pow2(k: nat): (n: nat)
    ensures n >= 1
  {
    if k == 0 then 1 else 2 * Pow2(k - 1)
  }

  /** Doubling `b * 2^k` gives `b * 2^(k+1)`. */
  lemma DoublePow2(b: int, k: nat)
    ensures b * Pow2(k) * 2 == b * Pow2(k + 1)
  {
  }

  /** The first capacity tried when growing: 16 from an empty array, else double the old one. */
  function GrowthBase(capacity: int): int {
    if capacity == 0 then 16 else capacity
  }

  /**
   Capacity growth: unchanged when the new count fits; otherwise doubled
   (16 from zero) until it fits, stopping at the first size that does.
   */
  method GrowCapacity(capacity: int, newCount: int) returns (newCap: int)
    requires capacity >= 0
    ensures newCount <= capacity ==> newCap == capacity
    ensures newCount > capacity ==>
              && newCap >= newCount
              && (exists k: nat :: newCap == GrowthBase(capacity) * Pow2(k))
              && ((capacity == 0 && newCap == 16) || newCap / 2 < newCount)
  {
    newCap := capacity;
    if newCount > capacity {
      ghost var k: nat := 0;
      while newCap < newCount
        invariant newCap >= capacity
        invariant newCap == GrowthBase(capacity) * Pow2(k) || (capacity == 0 && newCap == 0)
        invariant newCap == capacity || (capacity == 0 && newCap == 16) || newCap / 2 < newCount
        decreases newCount - newCap
      {
        if newCap == 0 {
          newCap := 16;
          k := 0;
        } else {
          DoublePow2(GrowthBase(capacity), k);
          newCap := newCap * 2;
          k := k + 1;
        }
      }
      assert newCap == GrowthBase(capacity) * Pow2(k);
    }
  }

  /** Every power of two from 2 on is even. */
  lemma Pow2Even(k: nat)
    requires k >= 1
    ensures Pow2(k) % 2 == 0
  {
  }

  /** Growing from 1 to hold 2 doubles once; growing from 0 to hold 17 goes to 16, then 32. */
  method GrowCapacityExamples() returns (a: int, b: int)
    ensures a == 2 && b == 32
  {
    a := GrowCapacity(1, 2);
    var ka: nat :| a == GrowthBase(1) * Pow2(ka);
    if ka >= 1 {
      Pow2Even(ka);
    }
    b := GrowCapacity(0, 17);
  }

  /** Everything the local phases produce. */
  datatype Migrated = Migrated(
    agents: seq<Agent>, capacity: int,
    sendCounts: seq<int>, sendDispls: seq<int>, totalSend: int, sendBuf: seq<Agent>,
    recvCounts: seq<int>, recvDispls: seq<int>, totalRecv: int,
    lists: seq<seq<int>>)

  /** Each rank's block sits at its displacement in the packed buffer. */
  lemma SendLayout(agents: seq<Agent>, perRank: seq<seq<int>>, counts: seq<int>, displs: seq<int>, buf: seq<Agent>)
    requires forall r :: 0 <= r < |perRank| ==> IndicesBelow(perRank[r], |agents|)
    requires counts == Lens(perRank) && |displs| == |perRank|
    requires forall r :: 0 <= r < |perRank| ==> displs[r] == Sum(counts[..r])
    requires buf == Flatten(Blocks(agents, perRank))
    ensures forall r :: 0 <= r < |perRank| ==>
              && 0 <= displs[r] && displs[r] + counts[r] <= |buf|
              && buf[displs[r] .. displs[r] + counts[r]] == Pick(agents, perRank[r])
  {
    var blocks := Blocks(agents, perRank);
    assert Lens(blocks) == counts;
    forall r | 0 <= r < |perRank|
      ensures 0 <= displs[r] && displs[r] + counts[r] <= |buf|
      ensures buf[displs[r] .. displs[r] + counts[r]] == Pick(agents, perRank[r])
    {
      FlattenBlock(blocks, r);
    }
  }

  /**
   The send side as `migrate_agents` lays it out: rank r's list holds the
   indices of the agents leaving for r, in order, its count is the list's
   length, its displacement is the sum of the earlier counts, and the
   packed buffer holds those agents at that displacement.
   */
  ghost predicate SendPlan(ctx: Ctx, agents: seq<Agent>, perRank: seq<seq<int>>, sendCounts: seq<int>, sendDispls: seq<int>, totalSend: int, sendBuf: seq<Agent>)
    requires ValidCtx(ctx) && LiveOnGrid(ctx, agents)
  {
    && |perRank| == |sendCounts| == |sendDispls| == ctx.p.size
    && (forall r :: 0 <= r < ctx.p.size ==>
          perRank[r] == SentIdx(ctx, agents, |agents|, r) && sendCounts[r] == |perRank[r]|)
    && totalSend == Sum(sendCounts) == |sendBuf|
    && (forall r :: 0 <= r < ctx.p.size ==> sendDispls[r] == Sum(sendCounts[..r]))
    && (forall r :: 0 <= r < ctx.p.size ==>
          && IndicesBelow(perRank[r], |agents|)
          && 0 <= sendDispls[r] && sendDispls[r] + sendCounts[r] <= |sendBuf|
          && sendBuf[sendDispls[r] .. sendDispls[r] + sendCounts[r]] == Pick(agents, perRank[r]))
  }

  /**
   The send side: classification, counts, displacements and the packed
   buffer, in which the j-th migrant to rank r (in index order) sits at
   rank r's displacement plus j.
   */
  method SendSide(ctx: Ctx, agents: seq<Agent>)
    returns (perRank: seq<seq<int>>, sendCounts: seq<int>, sendDispls: seq<int>, totalSend: int, sendBuf: seq<Agent>)
    requires ValidCtx(ctx) && LiveOnGrid(ctx, agents)
    ensures SendPlan(ctx, agents, perRank, sendCounts, sendDispls, totalSend, sendBuf)
  {
    var stay;
    sendCounts, perRank, stay := Classify(ctx, agents);
    assert sendCounts == Lens(perRank);
    sendDispls, totalSend := Displacements(sendCounts);
    sendBuf := Pack(agents, perRank);
    SendLayout(agents, perRank, sendCounts, sendDispls, sendBuf);
    FlattenLength(Blocks(agents, perRank));
    assert Lens(Blocks(agents, perRank)) == sendCounts;
  }

  /**
   The local phases of `migrate_agents`. `incoming[r]` stands for the block
   rank r sends here; the counts and buffers exchanged by the two
   all-to-all calls are otherwise as the source lays them out. The result
   keeps the survivors in order and appends what was received.
   */
  method MigrateAgents(ctx: Ctx, agents: seq<Agent>, capacity: int, incoming: seq<seq<Agent>>) returns (m: Migrated)
    requires ValidCtx(ctx) && LiveOnGrid(ctx, agents) && capacity >= 0
    requires |incoming| == ctx.p.size
    ensures m.agents == Survivors(ctx, agents, |agents|) + Flatten(incoming)
    ensures |m.agents| == StayCount(ctx, agents, |agents|) + m.totalRecv
    ensures SendPlan(ctx, agents, m.lists, m.sendCounts, m.sendDispls, m.totalSend, m.sendBuf)
    ensures m.recvCounts == Lens(incoming) && m.totalRecv == Sum(m.recvCounts) == |Flatten(incoming)|
    ensures |m.recvDispls| == ctx.p.size && forall r :: 0 <= r < ctx.p.size ==> m.recvDispls[r] == Sum(m.recvCounts[..r])
    ensures |m.agents| <= capacity ==> m.capacity == capacity
    ensures |m.agents| > capacity ==> m.capacity >= |m.agents|
  {
    var perRank, sendCounts, sendDispls, totalSend, sendBuf := SendSide(ctx, agents);

    var recvCounts := Lens(incoming);
    var recvDispls, totalRecv := Displacements(recvCounts);
    var received := Flatten(incoming);
    FlattenLength(incoming);

    var kept := Compact(ctx, agents, perRank);
    SurvivorsExact(ctx, agents, |agents|);
    var newCount := |kept| + totalRecv;
    var newCap := capacity;
    if newCount > capacity {
      newCap := GrowCapacity(capacity, newCount);
    }
    m := Migrated(kept + received, newCap, sendCounts, sendDispls, totalSend, sendBuf,
                  recvCounts, recvDispls, totalRecv, perRank);
  }
}
