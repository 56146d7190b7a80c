# A verified model of a seasonal foraging simulation

The simulator places agents on a global grid of land-use cells:

- village (ALDEIA);
- fishing ground (PESCA);
- gathering area (COLETA);
- swidden field (ROCADO);
- forbidden land (INTERDITADA).

A dry/wet season cycle decides which cells are accessible and how fast their resource grows back. Each agent moves toward the richest reachable neighbouring cell, eats there or loses energy, and dies when its energy runs out.

The grid is split over MPI ranks in a Cartesian process grid. Each rank owns a block, stored with a one-cell halo. Agents that walk out of a rank's block migrate to the rank that owns their new cell.

This project models the deterministic, sequential rules underneath the parallel plumbing, and proves what they promise:

- factorisation of the rank count, tiling and ownership lookup (`Partitioning`);
- halo-padded indexing (`Types`);
- season rules (`Seasons`);
- the xorshift64 generator and per-cell seed hash, on `bv64` (`Rng`);
- sub-grid creation, initialisation and regeneration (`Grid`);
- agent placement, the single-agent decision step and a round over all agents (`Agents`);
- local metrics (`Metrics`);
- the local phases of migration (`Migration`);
- the command-line parser and render schedule (`Cli`);
- the keyboard state machine and display arithmetic of the terminal view (`Tui`);
- the benchmark report script (`PlotBench`).

Modelling choices:

- C `double` is `real`, and rounding is ignored.
- C integer division and remainder truncate toward zero. They are written out as `CArith.Div` and `CArith.Rem`.
- `uint64_t` is `bv64`. A `(uint64_t)x * K` product wraps modulo 2^64 (`CArith.MulU64`).
- The `accessible` and `alive` integers are `bool`, since the source stores only 0 and 1 in them.
- MPI's Cartesian rank order is row-major, as the MPI standard numbers Cartesian topologies (section 7.5 of MPI-3.1). `MPI_PROC_NULL` is -1.
- `atoi`, `atoll`, Python's `int()` and `float()`, and the CSV reader are parameters: function-typed arguments or input sequences.
- The two `MPI_Alltoall`/`MPI_Alltoallv` exchanges of migration are replaced by an input: the blocks of agents received from each rank.

One file per source module: `c_arith.dfy` (C integer semantics plus the `Option`/`Result` wrappers), `types.dfy`, `season.dfy`, `rng.dfy`, `partition.dfy`, `grid.dfy`, `agent.dfy`, `metrics.dfy`, `migrate.dfy`, `cli.dfy`, `tui.dfy`, `plot_bench.dfy`.

## Model

| member | source | states |
|---|---|---|
| Types.TypeOfCode | include/types.h:11-17 | Each enum value 0..4 names the cell type whose code it is. |
| Types.TypeCodeRoundTrip | include/types.h:11-17 | Every cell type's code is in 0..4 and decodes back to the same type. |
| Types.CellAtBounds | include/types.h:89-94 | `CELL_AT` of a position inside the padded buffer indexes inside the `halo_h * halo_w` cell array. |
| Types.CellAtRoundTrip | include/types.h:89-94 | Row and column are recovered from the flat index as `i / halo_w` and `i % halo_w`. |
| Types.CellAtInjective | include/types.h:89-94 | Two distinct buffer positions never share a flat index. |
| Types.SlotRoundTrip | include/types.h:41-54 | Every slot of the cell array is the `CELL_AT` of exactly one buffer position. |
| Types.HaloRing | include/types.h:89-93 | The halo is exactly rows 0 and `local_h+1` and columns 0 and `local_w+1`; the interior is 1..local on both axes. |
| Types.SetCellFrame | include/types.h:89-94 | Writing one cell changes that cell and no other buffer position. |
| Seasons.SeasonForCycle | src/season.c:3-9 | For cycles >= 0 the season is DRY exactly when `cycle / season_length` is even. |
| Seasons.SeasonConstantOnBlock | src/season.c:3-9 | The season is the same for every cycle of block `[kL, (k+1)L)`, and is DRY on even blocks and WET on odd ones. |
| Seasons.SeasonAlternates | src/season.c:3-9 | Consecutive blocks have different seasons. |
| Seasons.SeasonPeriodic | src/season.c:3-9 | The season repeats with period `2 * season_length`. |
| Seasons.AccessibilityRules | src/season.c:11-20 | Villages and gathering areas are always accessible and forbidden land never is; fishing is accessible exactly in the dry season and swidden exactly in the wet one, so exactly one of those two is open. |
| Seasons.RegenRate | src/season.c:22-40 | Every rate is in [0, 0.04]; villages and forbidden land never regrow, and the other three types always do. |
| Seasons.RegenFavouredSeason | src/season.c:31-38 | Fishing regrows faster in the dry season; gathering and swidden regrow faster in the wet one. |
| Rng.Seed | src/rng.c:3-6 | A seeded state is never zero, and a non-zero seed is kept unchanged. |
| Rng.ShiftStepsKeepNonZero | src/rng.c:8-13 | Each of the three xorshift steps maps a non-zero word to a non-zero word. |
| Rng.Next | src/rng.c:8-13 | The generator step maps a non-zero state to a non-zero state. |
| Rng.ZeroIsFixed | src/rng.c:8-13 | Zero is the degenerate fixed point of the step, which seeding avoids. |
| Rng.SeedIdempotent | src/rng.c:3-6 | Seeding an already seeded state changes nothing. |
| Rng.Iterate | src/rng.c:8-13 | Any number of steps from a non-zero state stays non-zero. |
| Rng.CellSeed | src/rng.c:23-36 | The per-cell seed `rng_cell_seed` returns is never zero. |
| Rng.CellSeedIsSeeded | src/rng.c:23-36 | The per-cell hash is a valid seed as it is, and it is one generator step from the pre-mixed word when that word is non-zero and 1 when it is zero. |
| Partitioning.BestFactors | src/partition.c:23-33 | The result is a divisor pair `px * py == size` with `px <= py`, and no divisor pair has a smaller spread `abs(a - b)`. |
| Partitioning.SmallerFactorBelowRoot | src/partition.c:24 | The smaller factor of any divisor pair lies below the first `i` with `i * i > size`, so the loop bound loses no pair. |
| Partitioning.FactorBelowCofactor | src/partition.c:24-27 | A divisor found by the loop is at most its cofactor. |
| Partitioning.NoSmallerSpread | src/partition.c:24-33 | Once the loop has passed the root, the best spread seen is minimal over every divisor pair. |
| Partitioning.ProcessGrid | src/partition.c:23-46 | `px * py == size` with minimal spread; the larger factor goes to columns when the grid is at least as wide as tall, and to rows otherwise. |
| Partitioning.PartitionInit | src/partition.c:11-99 | A valid partition of `size` ranks with the orientation above, whose row-major coordinates give back the rank and whose eight neighbours are the Cartesian neighbours or -1 off the grid. |
| Partitioning.Opposite | src/partition.c:62-99 | Every neighbour direction has an opposite whose offsets are negated. |
| Partitioning.CartRankInjective | src/partition.c:48-60 | Distinct process-grid coordinates have distinct ranks. |
| Partitioning.NeighborSymmetric | src/partition.c:62-99 | If rank B is A's neighbour in direction k, then A is B's neighbour in the opposite direction. |
| Partitioning.RowMajorCoords | src/partition.c:57-60 | Every rank below `px * py` has coordinates inside the process grid, and they map back to it. |
| Partitioning.CartNeighbors | src/partition.c:62-99 | The eight neighbours in N, S, E, W, NE, NW, SE, SW order are -1 exactly where that step leaves the process grid. |
| Partitioning.CartRankInRange | src/partition.c:48-60 | Coordinates inside the process grid have a rank below `px * py`. |
| Partitioning.PartitionInitSerial | src/partition.c:101-110 | Without MPI: one rank 0 at (0, 0) in a 1 x 1 process grid, with all eight neighbours -1. |
| Partitioning.AxisTiles | src/partition.c:113-125 | The blocks of one axis start at 0, follow each other without gap or overlap, end at the global size, and the last one is `base + rem` long. |
| Partitioning.AxisOrdered | src/partition.c:113-125 | A block on one axis ends before any later block starts. |
| Partitioning.AxisDisjoint | src/partition.c:113-125 | No coordinate lies in two blocks of the same axis. |
| Partitioning.AxisOwner | src/partition.c:113-125 | Every coordinate of the axis lies in exactly one block. |
| Partitioning.AxisOwnerHolds | src/partition.c:132-135 | The clamped quotient `min(g / base, parts - 1)` names the block holding g, and no other block does. |
| Partitioning.QuotientBlock | src/partition.c:132-135 | The clamped quotient k satisfies `k * base <= g`, and `g < (k + 1) * base` unless k is the last block. |
| Partitioning.AxisRankCoord | src/partition.c:132-135 | For a non-negative coordinate the looked-up column or row always lies in range, because out-of-range quotients are clamped. |
| Partitioning.AxisRankCoordIsOwner | src/partition.c:121-135 | When the base block size is positive, the looked-up column or row is the unique block that contains the coordinate. |
| Partitioning.AxisRankCoordMissesOwner | src/partition.c:129-135 | With one column shared by two ranks (`base_w == 0`), the lookup answers column 0 while column 1 owns the cell. |
| Partitioning.SubgridDims | src/partition.c:113-125 | A rank's block lies inside the global grid on both axes. |
| Partitioning.OwnBlockInside | src/partition.c:113-125 | A rank's own column and row blocks lie inside the global width and height. |
| Partitioning.BlockInside | src/partition.c:113-125 | Every block of an axis lies inside the axis. |
| Partitioning.CoordsForGlobal | src/partition.c:127-135 | For non-negative coordinates the looked-up process coordinates are inside the process grid. |
| Partitioning.RankForGlobal | src/partition.c:127-146 | Without MPI the lookup is 0; with MPI it is a rank below `size`. |
| Partitioning.SerialLookupAgrees | src/partition.c:137-145 | On a 1 x 1 process grid the MPI and serial lookups both answer 0. |
| Partitioning.OwnerCoords | src/partition.c:113-125 | The coordinates of the rank whose block holds a cell are inside the process grid. |
| Partitioning.OwnerRank | src/partition.c:113-125 | The rank whose block holds a cell is below `size`. |
| Partitioning.RankForGlobalIsOwner | src/partition.c:127-146 | When both base block sizes are positive, the lookup returns the owner's coordinates and rank. |
| Partitioning.RankForGlobalMissesOwner | src/partition.c:127-146 | On a 1 x 1 grid split over two columns, the lookup returns rank 0 for the only cell, which rank 1 owns. |
| Partitioning.OwnsIffOwner | src/partition.c:148-153 | On a sub-grid laid out by its partition, `partition_owns_global` holds exactly when the rank is the cell's owner. |
| Partitioning.ExactlyOneOwner | src/partition.c:113-125 | A cell lies in the blocks of a given column and row exactly when those are the owner's coordinates. |
| Grid.MaxResource | src/grid.c:13-19 | Every maximum resource is in [0, 1], and it is 0 exactly for forbidden land. |
| Grid.SubgridCreate | src/grid.c:21-35 | The sub-grid has the partition's block as dimensions and offsets, `halo_w = local_w + 2`, `halo_h = local_h + 2`, and `halo_h * halo_w` zeroed cells. |
| Grid.InitialCell | src/grid.c:45-55 | A freshly initialised cell holds no resource, is accessible, and has the maximum resource of its type. |
| Grid.AllRoundTrip | include/types.h:89-94 | Every buffer position decodes back from its flat index. |
| Grid.MapInterior | src/grid.c:40-57 | Visiting the interior rewrites exactly the interior cells and keeps the halo and the shape. |
| Grid.SubgridInit | src/grid.c:37-58 | Each interior cell becomes the initial cell of its global coordinates `(offset_x + c - 1, offset_y + r - 1)`; halo cells and the shape are unchanged. |
| Grid.InitAtGlobal | src/grid.c:37-58 | The owned global cell (gx, gy) holds exactly the initial cell for (seed, gx, gy). |
| Grid.DecompositionIndependent | src/grid.c:45-48 | Any two sub-grids that own a cell, whatever the decomposition, initialise it identically. |
| Grid.UpdateCell | src/grid.c:64-75 | Type and maximum are kept; accessibility follows the season; the resource is clamped into [0, max]; from a resource already in range it grows by `rate * (max - resource)` and never falls. |
| Grid.SubgridUpdate | src/grid.c:60-78 | Every interior cell is updated as above, and the halo and shape are unchanged. |
| Grid.UpdateKeepsBounds | src/grid.c:60-78 | Over any sequence of seasons a cell's resource stays in [0, max] and never decreases. |
| Agents.DirectionsAreSteps | src/agent.c:14-17 | Every direction moves at most one cell on each axis, and only direction 8 stays. |
| Agents.DrawX | src/agent.c:35 | The drawn column lies in `[0, global_w)`. |
| Agents.DrawY | src/agent.c:36 | The drawn row lies in `[0, global_h)`. |
| Agents.DrawStep | src/agent.c:32-36 | Agent i's two draws are steps `2i + 1` and `2i + 2` of the placement generator, whether or not the agent is kept. |
| Agents.AgentsInit | src/agent.c:21-48 | At most `num_total` agents are kept, exactly those whose drawn cell the rank owns. They come in increasing id order, each with id below `num_total`, the drawn position inside the grid, the initial energy, and alive. |
| Agents.KeptAppend | src/agent.c:38-46 | Keeping agent n, with the next id, preserves the placement invariant. |
| Agents.ScanFrom | src/agent.c:65-87 | The scan of directions d..8 ends with a candidate holding the best resource (or the initial stay), never lowers the best, and changes nothing if no candidate remains. |
| Agents.ScannedLead | src/agent.c:77-80 | Strictly more resource takes the lead and keeps the scan invariant. |
| Agents.ScannedTie | src/agent.c:81-86 | A tie, whichever direction the draw keeps, keeps the scan invariant. |
| Agents.Scan | src/agent.c:61-87 | The chosen direction is accessible and in the buffer, or it is "stay" with best -1; no candidate holds more; with no candidate the agent stays. |
| Agents.ScanPicksRichest | src/agent.c:77-86 | On a grid without negative resource, the chosen cell is a candidate at least as rich as any other candidate. |
| Agents.Min | src/agent.c:101-102 | The consumed amount is the smaller of gain and resource. |
| Agents.Bookkeep | src/agent.c:93-113 | Eating takes `min(gain, resource)` from an accessible cell that has resource and adds `gain` energy; otherwise `loss` is subtracted. Only that cell changes, it stays non-negative, and the agent is alive exactly when its energy is positive. |
| Agents.AgentDecide | src/agent.c:52-114 | A dead agent, the grid and the generator are untouched. A live agent moves in the scanned direction and then does its bookkeeping at its new cell, and the generator advances only through the scan. |
| Agents.DecideKeepsResourcesNonNegative | src/agent.c:97-107 | A decision never makes any cell's resource negative. |
| Agents.DecideMovesOneStep | src/agent.c:89-91 | An agent keeps its id and moves at most one cell on each axis. |
| Agents.RoundWith | src/agent.c:133-148 | A round yields one agent per input agent. |
| Agents.RoundSplit | src/agent.c:133-148 | A round over `a + b` equals a round over `a` followed by a round over `b` from the grid and generator it left. |
| Agents.SplitStep | src/agent.c:133-148 | The split holds for a non-empty prefix once it holds for the prefix without its first agent. |
| Agents.RoundAt | src/agent.c:133-148 | Agent k ends the round as its own decision on the grid and generator left by agents 0..k-1. |
| Agents.RoundKeepsShape | src/agent.c:133-148 | A round keeps the sub-grid valid, with the same dimensions and offsets. |
| Agents.ProcessAll | src/agent.c:133-148 | A round of decisions keeps the agent count and the sub-grid's shape. |
| Agents.ProcessAllSteps | src/agent.c:133-148 | After the round, each dead agent is unchanged. Each live agent keeps its id, moves at most one cell per axis, gains `gain` or loses `loss`, and is alive exactly when its energy is positive. |
| Agents.ProcessSplit | src/agent.c:133-148 | Processing `a + b` is processing `a`, then `b` from where `a` left the grid and generator. |
| Agents.ProcessKeepsResourcesNonNegative | src/agent.c:133-148 | A round over any agents keeps every resource non-negative. |
| Agents.ThreadRng | src/agent.c:129-130 | A thread's generator, seeded from `seed ^ ((tid + 1) * 2654435761 mod 2^64)`, is never zero. |
| Agents.AgentsProcess | src/agent.c:118-150 | One thread's pass keeps the agent count and a valid sub-grid. |
| Agents.AgentsProcessEnergy | src/agent.c:118-150 | With the gain and loss fixed at `DEFAULT_ENERGY_GAIN` 0.3 and `DEFAULT_ENERGY_LOSS` 0.4, not the configured rates, each live agent gains 0.3 or loses 0.4 and is alive exactly when its energy is positive; dead agents are unchanged. |
| Metrics.ColsSumInteriorOnly | src/metrics.c:12-19 | A row's sum depends only on interior cells. |
| Metrics.RowsSumInteriorOnly | src/metrics.c:12-19 | The sum of the first n rows depends only on interior cells. |
| Metrics.InteriorOnly | src/metrics.c:12-19 | Halo cells never count: sub-grids with equal interiors have the same total. |
| Metrics.ColsSumBounds | src/metrics.c:15-17 | A row's partial sum lies in [0, n * hi] when each cell is in [0, hi]. |
| Metrics.RowsSumBounds | src/metrics.c:14-18 | The sum of n rows lies in [0, n * local_w * hi]. |
| Metrics.InteriorTotalBounds | src/metrics.c:12-19 | The total resource lies in [0, local_h * local_w * hi]. |
| Metrics.AliveCount | src/metrics.c:27-36 | The live count never exceeds the number of agents. |
| Metrics.StatsAppend | src/metrics.c:27-41 | Count and energy sum add up over a split of the agent array, so partial results can be summed. |
| Metrics.AliveCountCounts | src/metrics.c:27-36 | The count is 0 exactly when no agent is alive, and equals the length exactly when all are; with none alive the energy sum is 0. |
| Metrics.MetricsComputeLocal | src/metrics.c:9-42 | The total is the interior sum, the count is the live count, and `avg_energy` holds the sum of live energies. With none alive max = min = 0; otherwise both are energies of live agents and bound every live energy. |
| Migration.InBoxIsOwnership | src/migrate.c:61-64 | The inclusive box `[x0, x1] x [y0, y1]` is the ownership box of `partition_owns_global`. |
| Migration.Dest | src/migrate.c:93 | The corrected destination, the rank whose block holds the agent's cell, is a rank below `size`. |
| Migration.SourceDest | src/migrate.c:93 | The destination as written, `partition_rank_for_global`, is a rank below `size`. |
| Migration.SourceDestMisroutes | src/migrate.c:86-98 | With 8 ranks on a 3 x 2 grid, the written lookup sends an agent at (0, 1) from rank 3 to rank 4, whose block is empty, instead of the owner rank 7, and on rank 4 it names rank 4 itself for that agent although the agent is outside the box. |
| Migration.DestIsLookup | src/migrate.c:93 | When every block is non-empty, the destination is what `partition_rank_for_global` returns. |
| Migration.OutsideMeansElsewhere | src/migrate.c:86-98 | On a sub-grid laid out by its own partition, an agent is outside the box exactly when the corrected destination is another rank; with the written lookup this fails on empty blocks (see SourceDestMisroutes). |
| Migration.SentIdx | src/migrate.c:80-108 | Every listed index is below the scanned prefix. |
| Migration.SentIdxExact | src/migrate.c:80-108 | Rank r's list holds exactly the indices of the live agents that leave for r, in increasing order. |
| Migration.SentIdxSound | src/migrate.c:80-108 | Every listed index is a live agent that leaves for r. |
| Migration.IncreasingAppend | src/migrate.c:106-107 | Appending an index larger than every listed one keeps the list increasing. |
| Migration.SentIdxSorted | src/migrate.c:80-108 | The list is in increasing index order. |
| Migration.SentIdxComplete | src/migrate.c:80-108 | Every live agent that leaves for r is listed. |
| Migration.Classify | src/migrate.c:69-108 | Per rank, the list is exactly the departing indices in order and the count is its length; the stay count is the number of live agents that stay. |
| Migration.Displacements | src/migrate.c:116-126 | Each displacement is the exclusive prefix sum of the counts, so it starts at 0 and steps by the counts; the total is the sum of all counts. |
| Migration.Pick | src/migrate.c:136-138 | Picking follows the index list element by element. |
| Migration.Lens | src/migrate.c:112-114 | The receive counts are the lengths of the received blocks. |
| Migration.FlattenLength | src/migrate.c:141-145 | The received agents number the sum of the counts. |
| Migration.FlattenAt | src/migrate.c:141-145 | Element j of block r sits at r's displacement plus j in the concatenation. |
| Migration.SumNonNegative | src/migrate.c:120-126 | Totals of non-negative counts are non-negative. |
| Migration.PrefixSumBounds | src/migrate.c:120-126 | Every displacement lies between 0 and the total. |
| Migration.FlattenBlock | src/migrate.c:141-145 | Block r is the slice of the concatenation at its displacement. |
| Migration.Blocks | src/migrate.c:132-139 | Block r holds the agents listed for rank r. |
| Migration.Pack | src/migrate.c:132-139 | The send buffer is the agents of rank 0's list, then rank 1's, and so on, each in list order. |
| Migration.SurvivorsExact | src/migrate.c:147-164 | The survivors number the stay count, and they are exactly the live agents that do not leave. |
| Migration.ListedMeans | src/migrate.c:150-154 | An index is marked exactly when some rank's list contains it. |
| Migration.ListedIffLeaves | src/migrate.c:80-108 | An agent is listed for some rank exactly when it leaves. |
| Migration.MarkListed | src/migrate.c:149-154 | Marking kills exactly the listed agents and changes nothing else. |
| Migration.CompactLive | src/migrate.c:156-164 | Compaction keeps exactly the live agents, in their original relative order. |
| Migration.MarkedSurvivors | src/migrate.c:149-164 | Compacting the marked array gives the survivors. |
| Migration.Compact | src/migrate.c:147-164 | Marking and compacting leave exactly the survivors, in original order. |
| Migration.GrowCapacity | src/migrate.c:166-175 | A fitting count keeps the capacity; otherwise the result is `base * 2^k` (base 16 from 0, else the old capacity) at or above the count and is the first such size, half of it being below the count unless it is the 16 started from 0. |
| Migration.GrowCapacityExamples | src/migrate.c:166-175 | Growing from 1 to hold 2 gives 2, and growing from 0 to hold 17 gives 32. |
| Migration.SendLayout | src/migrate.c:132-145 | Each rank's slice of the send buffer, at its displacement and of its count, holds that rank's agents. |
| Migration.SendSide | src/migrate.c:69-139 | Lists, counts, displacements, total and packed buffer are laid out as the exchange expects. |
| Migration.MigrateAgents | src/migrate.c:53-193 | The new array is the survivors in order followed by the received agents in rank order. The count is `stay + total_recv`. The send side is laid out as above. Receive counts and displacements are prefix sums. The capacity is kept when the array fits and otherwise grows to cover it. |
| Cli.FlagOf | src/main.c:24-41 | A recognised value flag is spelled exactly as given, and no flag matches an unrecognised argument. |
| Cli.FlagOfInverse | src/main.c:24-41 | Every value flag's spelling is recognised as that flag, and none is spelled `--no-tui` or `--help`. |
| Cli.SetField | src/main.c:24-41 | A value flag sets its own field to the converted argument and leaves every other field as it was. |
| Cli.ParseFrom | src/main.c:22-43 | Parsing never changes the fields without a flag and can only turn rendering off. |
| Cli.ParseShift | src/main.c:22-43 | Parsing a suffix does not depend on the arguments before it. |
| Cli.ParseCompose | src/main.c:22-43 | Parsing `a + b`, where `a` ends on a flag boundary, is parsing `a` and then `b`. |
| Cli.TrailingFlagIgnored | src/main.c:24-41 | A value flag in last position changes nothing (the `i + 1 < argc` guard). |
| Cli.ValueFlagConsumes | src/main.c:24-41 | A value flag sets its field and consumes the next argument. |
| Cli.LastOccurrenceWins | src/main.c:23-42 | The last occurrence of a flag decides its field. |
| Cli.UnknownSkipped | src/main.c:23-42 | An unrecognised argument is skipped. |
| Cli.NoTuiDisables | src/main.c:38-39 | `--no-tui` anywhere on a flag boundary disables rendering without consuming a value. |
| Cli.Untouched | src/main.c:23-42 | A field whose flag never appears keeps its value. |
| Cli.TuiUntouched | src/main.c:38-39 | Without `--no-tui` the rendering switch keeps its value. |
| Cli.DefaultsKept | src/main.c:80-81 | A field whose flag never appears keeps its `SIM_CONFIG_DEFAULTS` value. |
| Cli.HelpIsSeparate | src/main.c:83-90 | `-h` means height, and only `--help` asks for usage, even as another flag's value. |
| Cli.RenderCycle | src/main.c:167-170 | With rendering off no cycle renders, and the render test faults with a division by zero exactly when rendering is on and the interval is 0. |
| Cli.ZeroIntervalFaults | src/main.c:40-41 | `--tui-interval 0` is accepted and leaves rendering on, after which every cycle's render test divides by zero. |
| Cli.RenderSchedule | src/main.c:167-170 | With rendering on and a non-zero interval, the test never faults and a cycle renders exactly when it is a multiple of the interval or the last cycle; the last cycle always renders, and interval 1 renders every cycle. |
| Tui.PollInput | src/tui.c:67-96 | The step request is exactly `n` or `N`, which also pauses. A space toggles running and paused, and turns quit into running. `q`/`Q` quit. Speed changes only for `+`, `=` or `-` and stays in [10, 2000]. No input changes nothing. |
| Tui.SpaceToggles | src/tui.c:72-75 | Two spaces give back the original running or paused state; a space after quit resumes. |
| Tui.SpeedStepsCancel | src/tui.c:79-88 | Faster then slower, or slower then faster, cancels away from the limits. |
| Tui.SpeedRangeInvariant | src/tui.c:79-88 | Over any key sequence the delay stays in [10, 2000]. |
| Tui.QuitSticks | src/tui.c:67-96 | After quit, only a space or a step key leaves the quit state. |
| Tui.StepFor | src/tui.c:143-145 | The sampling step is at least 1 and `len <= step * max`; above the limit it is the least such step, `ceil(len / max)`. |
| Tui.DisplayFits | src/tui.c:143-148 | The number of displayed positions is at most the display limit (80 columns, 40 rows), covers a non-empty axis, and every sampled `d * step` lies on the axis. |
| Tui.SampleOnAxis | src/tui.c:173-177 | Each sampled coordinate of an axis lies on that axis. |
| Tui.SampleInBounds | src/tui.c:173-183 | Each displayed cell's representative lies inside the global grid array. |
| Tui.RowMajorInRange | src/tui.c:161 | A position inside a `w` x `h` grid has its row-major index inside the array. |
| Tui.SlotInRange | src/tui.c:160-161 | A marked agent's slot lies inside the map. |
| Tui.BuildAgentMap | src/tui.c:150-163 | The map marks exactly the slots of live agents at on-grid positions. |
| Tui.AgentMapMeansPresence | src/tui.c:154-163 | A cell is marked exactly when some live agent stands on it. |
| Tui.CellChar | src/tui.c:116-125 | Every cell type has a letter among A, P, C, R, X. |
| Tui.CellCharRoundTrip | src/tui.c:116-125 | The letters are distinct: each decodes back to its type, and only these five letters decode. |
| Tui.RatioAbove | src/tui.c:130-132 | Comparing the ratio to a threshold is comparing the resource to the scaled threshold. |
| Tui.IntensityCode | src/tui.c:128-134 | Dim when max <= 0; otherwise bold exactly above 0.66 of max, normal exactly in (0.33, 0.66], dim otherwise. |
| Tui.IntensityMonotone | src/tui.c:128-134 | More resource never gives a dimmer intensity. |
| Tui.GlyphOf | src/tui.c:186-197 | An inaccessible cell shows the blocked dot; an accessible one shows the agent mark exactly when an agent stands there, and otherwise the letter of its own type. |
| PlotBench.Field | scripts/plot_bench.py:21-23 | Reading a column succeeds exactly when the key exists and the text parses; a missing key raises KeyError. |
| PlotBench.ParseRow | scripts/plot_bench.py:20-24 | A record parses exactly when NP, Threads and Time all parse, giving those three values. |
| PlotBench.ReadResults | scripts/plot_bench.py:15-25 | A successful read has one row per record. |
| PlotBench.ReadResultsRows | scripts/plot_bench.py:15-25 | The read succeeds exactly when every record parses, and row k is record k parsed, in file order. |
| PlotBench.ReadResultsError | scripts/plot_bench.py:15-25 | A failed read raises the exception of the first record that does not parse. |
| PlotBench.ReadResultsAppend | scripts/plot_bench.py:15-25 | Reading a file in two pieces gives the same rows in the same order. |
| PlotBench.PiecesParse | scripts/plot_bench.py:15-25 | When the whole file parses, so does each piece. |
| PlotBench.RowOfFirst | scripts/plot_bench.py:19-24 | A row from the first piece is the same row of the whole file. |
| PlotBench.RowOfSecond | scripts/plot_bench.py:19-24 | A row from the second piece is the whole file's row, shifted by the first piece's length. |
| PlotBench.Baseline | scripts/plot_bench.py:56 | A baseline exists exactly when some row has NP = 1 and Threads = 1, and it is the Time of the first such row. |
| PlotBench.Speedup | scripts/plot_bench.py:32 | Division fails exactly on a zero time; otherwise speedup times time is the baseline. |
| PlotBench.BaselineSpeedupIsOne | scripts/plot_bench.py:32-56 | The baseline row's speedup is 1 when its time is non-zero. |
| PlotBench.RowLines | scripts/plot_bench.py:31-33 | Line k shows row k with speedup `base / time`; all rows print exactly when no time is zero, and otherwise printing stops at the first zero with ZeroDivisionError. |
| PlotBench.PrintMarkdown | scripts/plot_bench.py:28-33 | The output is the header, the separator, then one line per row in input order. |
| PlotBench.Digits | scripts/plot_bench.py:41 | A decimal rendering is a non-empty string of digits. |
| PlotBench.DigitsRoundTrip | scripts/plot_bench.py:41 | Reading back the digits of a natural number gives the number. |
| PlotBench.DecimalRoundTrip | scripts/plot_bench.py:41 | Reading back an integer's rendering gives the integer. |
| PlotBench.DecimalHasNoTimes | scripts/plot_bench.py:41 | A rendered integer never contains the separator. |
| PlotBench.TimesIndex | scripts/plot_bench.py:41 | The separator search stays within the string. |
| PlotBench.TimesAfterNumber | scripts/plot_bench.py:41 | In a label the first separator comes right after the first number. |
| PlotBench.LabelInjective | scripts/plot_bench.py:41 | Different configurations get different labels. |
| PlotBench.Bars | scripts/plot_bench.py:36-42 | One bar per row, in order, as tall as its time; two bars share a label exactly when they have the same configuration. |
| PlotBench.ReportExample | scripts/plot_bench.py:28-56 | For the rows (1, 1, 10.0), (1, 2, 4.0), (2, 2, 2.5) the baseline is 10.0, the table prints speedups 1, 2.5 and 4 in input order, and the bars are labelled 1×1, 1×2 and 2×2 with heights 10.0, 4.0 and 2.5. |
| PlotBench.RunMain | scripts/plot_bench.py:51-58 | A wrong argument count exits with status 1. The run finishes exactly when the read succeeds, a baseline exists and no time is zero, and it then prints header, separator and one line per row and draws one bar per row. A missing baseline raises StopIteration before printing. |

## Left out

- MPI communication:
  - the halo exchange (`src/halo.c`);
  - the `MPI_Alltoall`/`MPI_Alltoallv` calls of migration, replaced by the received blocks as an input;
  - `metrics_reduce_global`;
  - `tui_gather_grid` and `tui_gather_agents`;
  - the `MPI_Cart_*` calls, replaced by their row-major meaning;
  - `partition_destroy`;
  - the main loop in `src/main.c`.

  These are collective operations whose meaning lies in the MPI library.
- OpenMP:
  - `agents_process` is modelled as one thread's pass over all agents in index order, with thread 0's generator;
  - the dynamic schedule of several threads, sharing one grid, is not modelled, because its tie-breaks depend on scheduling;
  - the `omp parallel for` in `subgrid_update` is modelled sequentially.
- `src/workload.c` (a busy loop) and `rng_double` (floating-point scaling): both are floating-point code that decides nothing in the model.
- `scripts/compare.py` is a `pandas.merge` wrapper whose join semantics are not visible. `tests/test_harness.h` holds only test macros.
- Terminal I/O is not modelled:
  - raw mode (`tui_init_interactive`, `tui_restore_terminal`), `read()`, and all `printf`/ANSI output, including `season_name`, `cell_bg` and the header and footer;
  - `tui_poll_input` is a function of an optional character;
  - `tui_render` is modelled through its step arithmetic, agent map, letters, intensities and per-cell glyph choice.
- The `default: return '?'` branch of `cell_char` cannot be reached from a `CellType` value.
- Floating-point rounding, NaN and the `.3f` formatting of the report are not modelled: `double` is `real`, and a printed row keeps its values instead of their formatted text.
- C `int` overflow is not modelled: integers are unbounded, and only the `uint64_t` products wrap.
- `calloc`/`malloc`/`realloc` failure is not modelled. The in-place compaction of the agent array is a new sequence.
- Headers that disagree with their sources follow the sources:
  - `include/tui.h` declares a different `tui_render`;
  - `include/agent.h` declares functions that are never defined;
  - `include/config.h` initialises `reproduce_threshold`, `reproduce_cost` and `csv_output`, which `SimConfig` does not have, so those fields are absent.
- `Migration.MigrateAgents` requires every live agent to stand on the global grid (`LiveOnGrid`), because the owner lookup is defined there. The source applies the lookup to any position.
- `Metrics.MetricsComputeLocal` requires live energies to be finite doubles (`FiniteEnergies`). This matches the `-DBL_MAX`/`DBL_MAX` sentinels, which an infinite energy would not respect.
- `Tui.BuildAgentMap` requires non-negative grid dimensions, as `calloc` of a negative size does.
- `Agents.AgentDecide` is applied inside a round only to a valid sub-grid. The round's decider leaves the state unchanged on an invalid grid, a case the source never meets.
- `Migration.GrowCapacity` computes the new capacity only; the `realloc` of the array is the new sequence of `Migration.MigrateAgents`.
- `Migration.Dest` routes a departing agent to the rank that owns its cell (`Partitioning.OwnerRank`), not with `partition_rank_for_global` as `src/migrate.c:93` does; the two differ only when some block is empty (`global_w < px` or `global_h < py`), e.g. 8 ranks on a 3 x 2 grid, where the source sends an agent at (0, 1) to the empty rank 4 and keeps it there, and the model sends it to rank 7 (`Migration.SourceDestMisroutes`). `Leaves`, `Classify`, `SendSide`, `Compact` and `MigrateAgents` inherit the corrected routing.

## Findings

| source | as written | input that shows it | evidently intended | confidence | as-written member | corrected member |
|---|---|---|---|---|---|---|
| src/partition.c:129-135 | With `base_w = global_w / px == 0` the column is set to 0, and likewise the row when `base_h == 0`. | `px = 2`, `global_w = 1`, cell `gx = 0`: `partition_subgrid_dims` gives column 0 width 0 and column 1 width 1, but the lookup answers column 0. | The column (and row) whose block contains the cell, here `px - 1`, the last column, which absorbs the whole axis. | not executed | Partitioning.RankForGlobalMissesOwner | Partitioning.OwnerRank |
| src/migrate.c:93-98 | Migrants are routed with `partition_rank_for_global`, and an agent outside the box whose lookup names this rank is kept as still local. | 8 ranks, `-w 3 -h 2` (a 4 x 2 process grid, so `global_w / px == 0`): an agent of rank 3 stepping to (0, 1) goes to rank 4, whose block is empty, and rank 4 then keeps it as still local. | Send the agent to the rank whose block holds its cell, here rank 7. | not executed | Migration.SourceDestMisroutes | Migration.Dest |

Migration sends each agent to `Partitioning.OwnerRank`, the corrected owner lookup. `Partitioning.RankForGlobalIsOwner` and `Migration.DestIsLookup` prove that it agrees with `partition_rank_for_global` whenever every block is non-empty. `Partitioning.AxisRankCoordMissesOwner` and `Partitioning.AxisOwner` are the same discrepancy and its correction on one axis.
