# Wildfire simulation — a Dafny model

This project models the core of `wildfire.c`, a cellular-automaton forest
fire simulation on a square grid. Every cell is empty, a tree, burning or
burned. The model covers these parts of the program:

- grid initialisation (`init_grid`): a target number of trees placed by
  rejection sampling, a share of them already burning;
- the neighbour queries `count_burning_neighbors` and
  `count_tree_neighbors`;
- the synchronous transition `update`:
  - a burning cell advances its burn counter and burns out after
    `BURN_STAGES` cycles;
  - a tree may catch fire when enough of its tree-or-burning neighbours
    burn and its roll succeeds;
- the optional `lightning` strike that sets one tree on fire;
- the cycle loop of `run_sim`, with its cycle-limit and fires-out stops.

The modules follow the program's structure:

- `Cells`: cell states, run options, counting helpers.
- `Neighbours`: the 3x3 neighbour scan.
- `Transition`: `update`.
- `Lightning`: `lightning`.
- `Initialisation`: `init_grid`.
- `Ranking`: why the loop ends.
- `Driver`: `run_sim`.

Randomness is an oracle:

- Coordinate picks are raw `rand()` values from a stream `picks`. The model
  reduces them with `% size` exactly as the code does, row first.
- Ignition rolls come from a stream `rolls`, reduced with `% 100`.
- Whether lightning strikes in a cycle is a boolean per cycle.

`update` draws a roll only for a tree that passes the neighbour gate. So
the roll a tree uses is the one after all gated trees before it in
row-major order (`Transition.RollAt`). The method `Transition.Update`
follows the C loop, drawing one roll at a time. It is proved to compute the
cell-by-cell definition `StepGrid` / `StepCounters`, to draw exactly one
roll per gated tree, and to count exactly the burning cells plus the
ignitions as changes.

The gate `(double)burning / total >= neighbor_effect / 100.0` is modelled
as `total > 0 && burning * 100 >= neighbor_effect * total`. The two agree
exactly. With at most eight neighbours, two different ratios are at least
1/800 apart, far more than any rounding error.

Termination of the cycle loop follows from a ranking (`Ranking.Rank`):

- a tree weighs `BURN_STAGES`, as much as a cell that has just caught fire;
- a burning cell weighs the stages it has left;
- empty and burned cells weigh nothing.

A strike never raises the ranking, and a transition from a grid holding
fire lowers it by at least one per burning cell. Every cycle that goes on
therefore lowers the ranking, and the cycle index never exceeds the
ranking of the start (`Driver.RunCycles`). The cycle that finds the fires
out has already run `update` once more, so a run makes at most
`Rank(start) + 1` transitions. After a completed initialisation the final
cycle index is at most `BURN_STAGES * trees`, that is `3 * trees`
(`Driver.RunSim`): a cell catches fire at most once and burns for
`BURN_STAGES` cycles. A tree target of 0 still runs `update` once before
the fires-out test stops the run at cycle 0, unless `max_cycles` is 0.

The loop of `run_sim` is defined once, by recursion on the ranking
(`Driver.RunFrom`), from one cycle (`Driver.CycleStep`). The methods
`Driver.Cycle`, `Driver.CycleLoop` and `Driver.Simulate` compute exactly
that definition. `Driver.RunSim` is `Driver.RunFrom` started from the
initial grid of `Initialisation.Initial`, with zero counters.

Two behaviours of the code are easy to misread:

- The fires-out test scans the grid the cycle started from, after the
  strike, not the freshly computed next grid (`wildfire.c:377-390`). A fire
  that burns out during a transition is therefore noticed one cycle later.
  When the test fires, the grid is not replaced by the next one, but the
  counters and the cumulative change count already include that last
  transition. `Driver.CycleStep` defines exactly this, and `Driver.Cycle` computes it.
- With `neighbor_effect` 0 the gate `0 >= 0` holds for any tree with at
  least one tree-or-burning neighbour, even when none of them burns
  (`wildfire.c:222-224`). In a 5x5 forest burning only at its centre, with
  a certain catch, one transition sets all 24 trees on fire. This includes
  the corners, whose neighbours are all unburnt trees
  (`Transition.ZeroEffectScenario`). The model keeps the code's behaviour.

## Model

| member | source | states |
|---|---|---|
| Neighbours.NeighbourCount | wildfire.c:254-290 | a neighbour count is at most 8 |
| Neighbours.CountNeighbours | wildfire.c:254-290 | the C 3x3 scan with bounds clipping and the centre skipped returns the reference count of the eight surrounding positions in the given states |
| Neighbours.BurningWithinLive | wildfire.c:254-290 | burning neighbours never outnumber tree-or-burning neighbours |
| Neighbours.BorderBounds | wildfire.c:257-259 | with no wrap-around, an edge cell has at most 5 neighbours and a corner cell at most 3 |
| Neighbours.CentreIgnored | wildfire.c:260 | the cell's own state never changes its neighbour count |
| Transition.UpdateCell | wildfire.c:213-240 | one loop body yields the defined next state and counter, draws a roll exactly when the tree passes the gate, and counts a change exactly for a burning cell or an ignition |
| Transition.UpdateRow | wildfire.c:212-242 | one row of the loop yields that row of the next grid and counters, drawing one roll per gated tree of the row |
| Transition.Update | wildfire.c:208-244 | the whole loop computes the next grid and counters from the current grid alone, consumes one roll per gated tree, and reports burning cells plus ignitions as changes |
| Transition.StepKeepsEmptyAndBurned | wildfire.c:239-240 | empty and burned cells keep their state and counter |
| Transition.StepBurning | wildfire.c:213-217 | a burning cell's counter goes up by one; it becomes burned exactly when the new counter reaches BURN_STAGES and stays burning otherwise |
| Transition.StepTree | wildfire.c:218-238 | a tree stays a tree or starts burning; it starts burning, with counter 0, exactly when it has a live neighbour, the burning share meets the threshold and its roll is below catch_fire_percent; otherwise it keeps its counter |
| Transition.IsolatedTreeStays | wildfire.c:222-237 | a tree without tree-or-burning neighbours draws no roll and stays a tree |
| Transition.FullEffectGate | wildfire.c:222-224 | at neighbour effect 100 a tree rolls exactly when it has neighbours and all of them burn |
| Transition.ZeroEffectGate | wildfire.c:222-224 | at neighbour effect 0 a tree rolls exactly when it has a tree-or-burning neighbour, burning or not |
| Transition.ZeroEffectScenario | wildfire.c:213-238 | at neighbour effect 0 and catch 100, a 5x5 forest with a burning centre is all burning after one transition, and the centre counter is 1 |
| Lightning.Target | wildfire.c:300-301 | the struck row and column are inside the grid |
| Lightning.Strike | wildfire.c:298-309 | only an active strike that hits a tree changes anything: that tree burns with counter 0 and every other cell and counter is unchanged; two picks are used exactly when a strike happens |
| Initialisation.TargetsFit | wildfire.c:152-154 | the burning quota is at most the tree quota, which is at most the number of cells |
| Initialisation.EmptyGrid | wildfire.c:156-160 | the cleared grid is square and all empty |
| Initialisation.Attempt | wildfire.c:167-175 | an attempt uses up one tree of the quota exactly when the picked cell is empty, and changes nothing when it is not; an empty cell receives a burning tree while the burning quota lasts and a plain tree afterwards; the burning quota never exceeds the tree quota |
| Initialisation.AttemptFills | wildfire.c:167-175 | an attempt changes at most the picked cell, and only from empty to a tree or a burning tree |
| Initialisation.ReduceIsMod | wildfire.c:164-165 | the reduction of a raw pick is its remainder modulo the grid size |
| Initialisation.Coord | wildfire.c:164-165 | a reduced pick is a valid row or column index |
| Initialisation.Advance | wildfire.c:163-176 | one pass of the loop draws the next two picks, places at most one tree and keeps the burning quota within the tree quota |
| Initialisation.AdvanceCounts | wildfire.c:167-175 | each tree a pass places, burning or not, is one fewer left in the matching quota: grid count plus quota is the same before and after |
| Initialisation.Place | wildfire.c:163-176 | the rejection loop with an attempt budget never raises the quota, draws two picks per attempt, and uses the whole budget whenever trees are left to place |
| Initialisation.PlaceFills | wildfire.c:163-176 | the loop only turns empty cells into trees or burning trees and never changes a placed one |
| Initialisation.PlaceCounts | wildfire.c:163-176 | trees on the grid plus trees left to place stay equal to the start's, and likewise for burning trees |
| Initialisation.PlaceUsesPairs | wildfire.c:164-165 | the loop draws its picks in row-column pairs |
| Initialisation.Start | wildfire.c:152-160 | the loop starts on an all-empty grid with the full tree and burning quotas |
| Initialisation.Initial | wildfire.c:151-177 | after initialisation no cell is burned, and the trees (burning trees) on the grid plus those left to place are exactly the targets |
| Initialisation.PlaceLoop | wildfire.c:163-176 | the C loop, one attempt per pass, computes the recursive placement |
| Initialisation.InitGrid | wildfire.c:151-177 | the method computes the initial grid; a completed placement holds exactly the target number of trees, exactly the burning target of them burning, and nothing burned; an incomplete one used the whole budget; picks go in pairs |
| Ranking.NextCellLowersRank | wildfire.c:213-238 | one cell's weight never rises in a transition and drops by at least one when it was burning |
| Ranking.StepLowersRank | wildfire.c:208-244 | a transition lowers the ranking by at least the number of burning cells |
| Ranking.StepKeepsCountersBounded | wildfire.c:213-217 | after a transition every burning cell has burned for fewer than BURN_STAGES cycles |
| Ranking.StrikeKeepsBounds | wildfire.c:303-305 | a strike keeps the counter bound and never raises the ranking |
| Driver.NoFireMeans | wildfire.c:377-385 | a grid counts no burning cell exactly when none of its cells burns |
| Driver.NoneBurning | wildfire.c:377-385 | the fires-out scan, with its early exit, reports true exactly when no cell burns |
| Driver.TransitionKeeps | wildfire.c:208-244 | a transition keeps empty and burned cells; from a grid holding fire it keeps the counter bound, lowers the ranking and counts at least one change |
| Driver.CycleKeeps | wildfire.c:368-397 | a cycle keeps the grid square and every burning counter below BURN_STAGES |
| Driver.CycleSettles | wildfire.c:368-397 | a cycle leaves every empty and burned cell as it was |
| Driver.CycleProgresses | wildfire.c:377-397 | a cycle that stops holds no burning cell and keeps the cycle index; one that goes on raises the index by one, counts a change and lowers the ranking |
| Driver.RunAtLimit | wildfire.c:363 | at the cycle limit the loop stops with grid, counters, index and changes as they are |
| Driver.RunAfterCycle | wildfire.c:368-397 | below the limit the run is one cycle followed by a stop on the fires-out test or the rest of the run |
| Driver.Cycle | wildfire.c:368-397 | a cycle's strike, `update` loop, change count and fires-out scan compute the defined cycle field by field: grid kept when the fires are out, next grid adopted otherwise, counters and cursors as drawn |
| Driver.RunEnds | wildfire.c:363-390 | the run stops only at the cycle limit, exactly at max_cycles, or before it with no burning cell in the grid held |
| Driver.RunKeeps | wildfire.c:354-400 | the run ends on square grid and counters within the counter bound |
| Driver.RunSettles | wildfire.c:354-400 | empty and burned cells of the start never change during a run |
| Driver.RunCycles | wildfire.c:354-400 | a run makes at most Rank(start) continuing cycles, each counting at least one change |
| Driver.CycleLoop | wildfire.c:354-400 | the C loop computes the recursive run |
| Driver.Simulate | wildfire.c:354-400 | the cycle loop from cycle 0 is the recursive run; it halts at the cycle limit exactly at max_cycles or with no burning cell before it; the index never exceeds Rank(start); empty and burned cells never change; max_cycles 0 stops at once with nothing changed |
| Driver.RunSim | wildfire.c:331-402 | an incomplete initialisation is reported exactly when trees were left to place; otherwise the run is the recursive run from the initial grid with zero counters and the pick stream where placement stopped, ending within BURN_STAGES times the tree target cycles |
| Driver.ZeroCounters | wildfire.c:338-343 | every burn counter starts at 0 |

## Left out

- Terminal output is not modelled: `print`, `clear_screen`, `move_cursor`, the banners and the per-cycle status lines. The `usleep` pacing is left out too. None of them affects the grid.
- Command-line parsing in `main` (`wildfire.c:70-125`) is not modelled. `Cells.ValidConfig` states the ranges it accepts, and every operation assumes a configuration in those ranges. `maxCycles == -1` stands for the default "no limit".
- `srand(time(NULL))` and `rand()` are not modelled. All draws of the program come from one generator. The model takes coordinate picks, ignition rolls and strike decisions as three independent oracles, so every run of the program is one choice of oracles. The order in which the three kinds of draw interleave in the single stream is not modelled.
- The lightning test `(double)rand() / RAND_MAX < lightning_chance` is floating point. It is replaced by the per-cycle strike decision. A `lightning_chance` of 0 corresponds to an oracle that never strikes.
- Initialisation.InitGrid: the source loops until every tree is placed. The model stops after `attempts` attempts, and `Driver.RunSim` reports `InitIncomplete` when the budget ran out. Termination of the rejection loop holds only with probability 1 and is not modelled.
- C `int` width is not modelled. The grid has at most 1600 cells and a run makes at most 3 * 1600 + 1 transitions, so counters, counts and cumulative changes stay far below 32-bit limits.
- The `memset` of `next` before each update is not modelled. `update` assigns every cell of `next`, so the cleared contents are never read.
