/** The synchronous transition `update`: every cell of the next grid is
    computed from the current grid alone. Ignition rolls come from an
    oracle stream `rolls`; the C loop draws one roll, in row-major order,
    for each tree that passes the neighbour gate, so the roll a tree uses
    is the one after all gated trees before it. */
module Transition {
  import opened Cells
  import opened Neighbours

  /** The neighbour gate of the tree rule. The source compares
      `(double)burning / live >= neighbour_effect / 100.0`; with live <= 8
      the two exact ratios are either equal or at least 1/800 apart, so
      rounding cannot change the outcome and the integer form below is
      exact. */
  predicate Gate(burning: nat, live: nat, neighbourEffect: nat)
  {
    live > 0 && burning * 100 >= neighbourEffect * live
  }

  /** A tree at (r, c) passes the gate and therefore consumes a roll. */
  predicate Gated(cfg: Config, g: Grid, r: nat, c: nat)
    requires r < |g| && c < |g[r]|
  {
    && g[r][c] == Tree
    && Gate(NeighbourCount(g, r, c, {Burning}), NeighbourCount(g, r, c, Live), cfg.neighbourEffect)
  }

  /** Gated trees, as a matrix of flags. */
  function GateFlags(cfg: Config, g: Grid): (f: seq<seq<bool>>)
    ensures |f| == |g|
    ensures forall r :: 0 <= r < |g| ==> |f[r]| == |g[r]|
    ensures forall r, c :: 0 <= r < |g| && 0 <= c < |g[r]| ==> f[r][c] == Gated(cfg, g, r, c)
  {
    seq(|g|, r requires 0 <= r < |g| =>
      seq(|g[r]|, c requires 0 <= c < |g[r]| => Gated(cfg, g, r, c)))
  }

  /** Rolls consumed before the scan reaches (r, c): the gated trees in
      the rows above and in row r to the left of c. */
  function RollsBefore(cfg: Config, g: Grid, r: nat, c: nat): (k: nat)
    requires r < |g| && c <= |g[r]|
  {
    var f := GateFlags(cfg, g);
    GridCount(f[..r], {true}) + RowCount(f[r][..c], {true})
  }

  /** The roll that the tree at (r, c) would use. */
  function RollAt(cfg: Config, g: Grid, rolls: nat -> nat, cursor: nat, r: nat, c: nat): (roll: nat)
    requires r < |g| && c < |g[r]|
  {
    rolls(cursor + RollsBefore(cfg, g, r, c))
  }

  /** The tree at (r, c) catches fire this cycle. */
  predicate Ignites(cfg: Config, g: Grid, rolls: nat -> nat, cursor: nat, r: nat, c: nat)
    requires r < |g| && c < |g[r]|
  {
    Gated(cfg, g, r, c) && RollAt(cfg, g, rolls, cursor, r, c) % 100 < cfg.catchFirePercent
  }

  function IgniteFlags(cfg: Config, g: Grid, rolls: nat -> nat, cursor: nat): (f: seq<seq<bool>>)
    ensures |f| == |g|
    ensures forall r :: 0 <= r < |g| ==> |f[r]| == |g[r]|
    ensures forall r, c :: 0 <= r < |g| && 0 <= c < |g[r]| ==> f[r][c] == Ignites(cfg, g, rolls, cursor, r, c)
  {
    seq(|g|, r requires 0 <= r < |g| =>
      seq(|g[r]|, c requires 0 <= c < |g[r]| => Ignites(cfg, g, rolls, cursor, r, c)))
  }

  /** Next state and counter of one cell. */
  datatype CellOut = CellOut(state: Cell, counter: nat)

  function NextCell(cfg: Config, g: Grid, cnt: Counters, rolls: nat -> nat, cursor: nat, r: nat, c: nat): (o: CellOut)
    requires IsSquare(g, |g|) && IsSquare(cnt, |g|)
    requires r < |g| && c < |g|
  {
    match g[r][c]
    case Burning =>
      var k := cnt[r][c] + 1;
      CellOut(if k >= BURN_STAGES then Burned else Burning, k)
    case Tree =>
      if Ignites(cfg, g, rolls, cursor, r, c) then CellOut(Burning, 0) else CellOut(Tree, cnt[r][c])
    case _ =>
      CellOut(g[r][c], cnt[r][c])
  }

  /** Row r of the next grid: states and counters. */
  function StepRow(cfg: Config, g: Grid, cnt: Counters, rolls: nat -> nat, cursor: nat, r: nat): (row: seq<CellOut>)
    requires IsSquare(g, |g|) && IsSquare(cnt, |g|) && r < |g|
    ensures |row| == |g|
  {
    seq(|g|, c requires 0 <= c < |g| => NextCell(cfg, g, cnt, rolls, cursor, r, c))
  }

  /** The whole next grid, cell by cell. */
  function StepGrid(cfg: Config, g: Grid, cnt: Counters, rolls: nat -> nat, cursor: nat): (next: Grid)
    requires IsSquare(g, |g|) && IsSquare(cnt, |g|)
    ensures IsSquare(next, |g|)
  {
    seq(|g|, r requires 0 <= r < |g| => States(StepRow(cfg, g, cnt, rolls, cursor, r)))
  }

  /** The burn counters after the transition. */
  function StepCounters(cfg: Config, g: Grid, cnt: Counters, rolls: nat -> nat, cursor: nat): (next: Counters)
    requires IsSquare(g, |g|) && IsSquare(cnt, |g|)
    ensures IsSquare(next, |g|)
  {
    seq(|g|, r requires 0 <= r < |g| => CounterValues(StepRow(cfg, g, cnt, rolls, cursor, r)))
  }

  function States(row: seq<CellOut>): (xs: seq<Cell>)
    ensures |xs| == |row| && forall j :: 0 <= j < |row| ==> xs[j] == row[j].state
  {
    seq(|row|, j requires 0 <= j < |row| => row[j].state)
  }

  function CounterValues(row: seq<CellOut>): (ks: seq<nat>)
    ensures |ks| == |row| && forall j :: 0 <= j < |row| ==> ks[j] == row[j].counter
  {
    seq(|row|, j requires 0 <= j < |row| => row[j].counter)
  }

  /** Rolls a transition draws: one per gated tree. */
  function StepRolls(cfg: Config, g: Grid): (k: nat)
  {
    GridCount(GateFlags(cfg, g), {true})
  }

  /** Changes a transition reports: one per burning cell and one per
      ignition. */
  function StepChanges(cfg: Config, g: Grid, rolls: nat -> nat, cursor: nat): (k: nat)
  {
    GridCount(g, {Burning}) + GridCount(IgniteFlags(cfg, g, rolls, cursor), {true})
  }

  /** One iteration of the C `update` loop body for cell (r, c), given
      the number of rolls already drawn and the cell's current counter. */
  method UpdateCell(cfg: Config, g: Grid, cnt: Counters, rolls: nat -> nat, cursor: nat,
                    r: nat, c: nat, used: nat)
    returns (x: Cell, k: nat, drew: bool, changed: bool)
    requires IsSquare(g, |g|) && IsSquare(cnt, |g|) && r < |g| && c < |g|
    requires used == RollsBefore(cfg, g, r, c)
    ensures x == NextCell(cfg, g, cnt, rolls, cursor, r, c).state
    ensures k == NextCell(cfg, g, cnt, rolls, cursor, r, c).counter
    ensures drew == Gated(cfg, g, r, c)
    ensures changed <==> g[r][c] == Burning || Ignites(cfg, g, rolls, cursor, r, c)
  {
    k := cnt[r][c];
    drew, changed := false, false;
    if g[r][c] == Burning {
      k := k + 1;
      if k >= BURN_STAGES {
        x := Burned;
      } else {
        x := Burning;
      }
      changed := true;
    } else if g[r][c] == Tree {
      var burning := CountNeighbours(g, r, c, {Burning});
      var live := CountNeighbours(g, r, c, Live);
      if live > 0 {
        if burning * 100 >= cfg.neighbourEffect * live {
          drew := true;
          if rolls(cursor + used) % 100 < cfg.catchFirePercent {
            x := Burning;
            k := 0;
            changed := true;
          } else {
            x := Tree;
          }
        } else {
          x := Tree;
        }
      } else {
        x := Tree;
      }
    } else {
      x := g[r][c];
    }
  }

  /** One pass of the inner `update` loop: extends the results for the
      cells left of (r, c) by cell (r, c). */
  method UpdateNextCell(cfg: Config, g: Grid, cnt: Counters, rolls: nat -> nat, cursor: nat, r: nat, c: nat,
                        base: nat, row0: seq<Cell>, crow0: seq<nat>, changes0: nat, used0: nat)
    returns (row: seq<Cell>, crow: seq<nat>, changes: nat, used: nat)
    requires IsSquare(g, |g|) && IsSquare(cnt, |g|) && r < |g| && c < |g|
    requires base == GridCount(GateFlags(cfg, g)[..r], {true})
    requires row0 == States(StepRow(cfg, g, cnt, rolls, cursor, r))[..c]
    requires crow0 == CounterValues(StepRow(cfg, g, cnt, rolls, cursor, r))[..c]
    requires used0 == base + RowCount(GateFlags(cfg, g)[r][..c], {true})
    requires changes0 == RowCount(g[r][..c], {Burning}) + RowCount(IgniteFlags(cfg, g, rolls, cursor)[r][..c], {true})
    ensures row == States(StepRow(cfg, g, cnt, rolls, cursor, r))[..c + 1]
    ensures crow == CounterValues(StepRow(cfg, g, cnt, rolls, cursor, r))[..c + 1]
    ensures used == base + RowCount(GateFlags(cfg, g)[r][..c + 1], {true})
    ensures changes == RowCount(g[r][..c + 1], {Burning}) + RowCount(IgniteFlags(cfg, g, rolls, cursor)[r][..c + 1], {true})
  {
    RowCountSnoc(GateFlags(cfg, g)[r], c, {true});
    RowCountSnoc(g[r], c, {Burning});
    RowCountSnoc(IgniteFlags(cfg, g, rolls, cursor)[r], c, {true});
    var x, k, drew, changed := UpdateCell(cfg, g, cnt, rolls, cursor, r, c, used0);
    PrefixSnoc(States(StepRow(cfg, g, cnt, rolls, cursor, r)), c, x);
    PrefixSnoc(CounterValues(StepRow(cfg, g, cnt, rolls, cursor, r)), c, k);
    row := row0 + [x];
    crow := crow0 + [k];
    used := if drew then used0 + 1 else used0;
    changes := if changed then changes0 + 1 else changes0;
  }

  /** The inner loop of `update`: row r, column by column. */
  method UpdateRow(cfg: Config, g: Grid, cnt: Counters, rolls: nat -> nat, cursor: nat, r: nat, used0: nat)
    returns (row: seq<Cell>, crow: seq<nat>, changes: nat, used: nat)
    requires IsSquare(g, |g|) && IsSquare(cnt, |g|) && r < |g|
    requires used0 == GridCount(GateFlags(cfg, g)[..r], {true})
    ensures row == States(StepRow(cfg, g, cnt, rolls, cursor, r))
    ensures crow == CounterValues(StepRow(cfg, g, cnt, rolls, cursor, r))
    ensures used == used0 + RowCount(GateFlags(cfg, g)[r], {true})
    ensures changes == RowCount(g[r], {Burning}) + RowCount(IgniteFlags(cfg, g, rolls, cursor)[r], {true})
  {
    var n := |g|;
    row, crow, changes, used := [], [], 0, used0;
    var c := 0;
    while c < n
      invariant 0 <= c <= n
      invariant row == States(StepRow(cfg, g, cnt, rolls, cursor, r))[..c]
      invariant crow == CounterValues(StepRow(cfg, g, cnt, rolls, cursor, r))[..c]
      invariant used == used0 + RowCount(GateFlags(cfg, g)[r][..c], {true})
      invariant changes == RowCount(g[r][..c], {Burning}) + RowCount(IgniteFlags(cfg, g, rolls, cursor)[r][..c], {true})
    {
      row, crow, changes, used := UpdateNextCell(cfg, g, cnt, rolls, cursor, r, c, used0, row, crow, changes, used);
      c := c + 1;
    }
    PrefixAll(States(StepRow(cfg, g, cnt, rolls, cursor, r)));
    PrefixAll(CounterValues(StepRow(cfg, g, cnt, rolls, cursor, r)));
    PrefixAll(GateFlags(cfg, g)[r]);
    PrefixAll(g[r]);
    PrefixAll(IgniteFlags(cfg, g, rolls, cursor)[r]);
  }

  /** One pass of the outer `update` loop: extends the results for the
      rows above r by row r. */
  method UpdateNextRow(cfg: Config, g: Grid, cnt: Counters, rolls: nat -> nat, cursor: nat, r: nat,
                       next0: Grid, counters0: Counters, changes0: nat, used0: nat)
    returns (next: Grid, counters: Counters, changes: nat, used: nat)
    requires IsSquare(g, |g|) && IsSquare(cnt, |g|) && r < |g|
    requires next0 == StepGrid(cfg, g, cnt, rolls, cursor)[..r]
    requires counters0 == StepCounters(cfg, g, cnt, rolls, cursor)[..r]
    requires used0 == GridCount(GateFlags(cfg, g)[..r], {true})
    requires changes0 == GridCount(g[..r], {Burning}) + GridCount(IgniteFlags(cfg, g, rolls, cursor)[..r], {true})
    ensures next == StepGrid(cfg, g, cnt, rolls, cursor)[..r + 1]
    ensures counters == StepCounters(cfg, g, cnt, rolls, cursor)[..r + 1]
    ensures used == GridCount(GateFlags(cfg, g)[..r + 1], {true})
    ensures changes == GridCount(g[..r + 1], {Burning}) + GridCount(IgniteFlags(cfg, g, rolls, cursor)[..r + 1], {true})
  {
    GridCountSnoc(GateFlags(cfg, g), r, {true});
    GridCountSnoc(g, r, {Burning});
    GridCountSnoc(IgniteFlags(cfg, g, rolls, cursor), r, {true});
    var row, crow, rowChanges, rowUsed := UpdateRow(cfg, g, cnt, rolls, cursor, r, used0);
    PrefixSnoc(StepGrid(cfg, g, cnt, rolls, cursor), r, row);
    PrefixSnoc(StepCounters(cfg, g, cnt, rolls, cursor), r, crow);
    next := next0 + [row];
    counters := counters0 + [crow];
    changes := changes0 + rowChanges;
    used := rowUsed;
  }

  /** The C `update` loop: rows then columns, drawing a roll only for a
      tree that passes the gate, counting one change per burning cell and
      one per ignition. It computes exactly the cell-by-cell definition,
      consumes exactly one roll per gated tree, and reports as changes the
      burning cells plus the ignitions. */
  method Update(cfg: Config, g: Grid, cnt: Counters, rolls: nat -> nat, cursor: nat)
    returns (next: Grid, counters: Counters, changes: nat, used: nat)
    requires IsSquare(g, |g|) && IsSquare(cnt, |g|)
    ensures next == StepGrid(cfg, g, cnt, rolls, cursor)
    ensures counters == StepCounters(cfg, g, cnt, rolls, cursor)
    ensures used == StepRolls(cfg, g)
    ensures changes == StepChanges(cfg, g, rolls, cursor)
  {
    var n := |g|;
    next, counters, changes, used := [], [], 0, 0;
    var r := 0;
    while r < n
      invariant 0 <= r <= n
      invariant next == StepGrid(cfg, g, cnt, rolls, cursor)[..r]
      invariant counters == StepCounters(cfg, g, cnt, rolls, cursor)[..r]
      invariant used == GridCount(GateFlags(cfg, g)[..r], {true})
      invariant changes == GridCount(g[..r], {Burning}) + GridCount(IgniteFlags(cfg, g, rolls, cursor)[..r], {true})
    {
      next, counters, changes, used := UpdateNextRow(cfg, g, cnt, rolls, cursor, r, next, counters, changes, used);
      r := r + 1;
    }
    PrefixAll(StepGrid(cfg, g, cnt, rolls, cursor));
    PrefixAll(StepCounters(cfg, g, cnt, rolls, cursor));
    PrefixAll(GateFlags(cfg, g));
    PrefixAll(g);
    PrefixAll(IgniteFlags(cfg, g, rolls, cursor));
  }

  /** Empty and burned cells are copied unchanged, counters included. */
  lemma StepKeepsEmptyAndBurned(cfg: Config, g: Grid, cnt: Counters, rolls: nat -> nat, cursor: nat)
    requires IsSquare(g, |g|) && IsSquare(cnt, |g|)
    ensures forall r, c :: 0 <= r < |g| && 0 <= c < |g| && (g[r][c] == Empty || g[r][c] == Burned) ==>
      StepGrid(cfg, g, cnt, rolls, cursor)[r][c] == g[r][c]
      && StepCounters(cfg, g, cnt, rolls, cursor)[r][c] == cnt[r][c]
  {
  }

  /** A burning cell advances its counter by one and is burned out exactly
      when the advanced counter reaches BURN_STAGES. */
  lemma StepBurning(cfg: Config, g: Grid, cnt: Counters, rolls: nat -> nat, cursor: nat)
    requires IsSquare(g, |g|) && IsSquare(cnt, |g|)
    ensures forall r, c :: 0 <= r < |g| && 0 <= c < |g| && g[r][c] == Burning ==>
      && StepCounters(cfg, g, cnt, rolls, cursor)[r][c] == cnt[r][c] + 1
      && (StepGrid(cfg, g, cnt, rolls, cursor)[r][c] == Burned <==> cnt[r][c] + 1 >= BURN_STAGES)
      && (StepGrid(cfg, g, cnt, rolls, cursor)[r][c] == Burning <==> cnt[r][c] + 1 < BURN_STAGES)
  {
  }

  /** A tree either stays a tree with its counter, or catches fire with its
      counter reset; it catches fire exactly when it passes the gate and
      its roll is below catchFirePercent. */
  lemma StepTree(cfg: Config, g: Grid, cnt: Counters, rolls: nat -> nat, cursor: nat, r: nat, c: nat)
    requires IsSquare(g, |g|) && IsSquare(cnt, |g|) && r < |g| && c < |g| && g[r][c] == Tree
    ensures var x := StepGrid(cfg, g, cnt, rolls, cursor)[r][c];
            var k := StepCounters(cfg, g, cnt, rolls, cursor)[r][c];
            && (x == Tree || x == Burning)
            && (x == Burning <==>
                  && NeighbourCount(g, r, c, Live) > 0
                  && NeighbourCount(g, r, c, {Burning}) * 100 >= cfg.neighbourEffect * NeighbourCount(g, r, c, Live)
                  && RollAt(cfg, g, rolls, cursor, r, c) % 100 < cfg.catchFirePercent)
            && (x == Burning ==> k == 0)
            && (x == Tree ==> k == cnt[r][c])
  {
  }

  /** A tree with no tree-or-burning neighbour draws no roll and stays a tree. */
  lemma IsolatedTreeStays(cfg: Config, g: Grid, cnt: Counters, rolls: nat -> nat, cursor: nat, r: nat, c: nat)
    requires IsSquare(g, |g|) && IsSquare(cnt, |g|) && r < |g| && c < |g| && g[r][c] == Tree
    requires NeighbourCount(g, r, c, Live) == 0
    ensures !GateFlags(cfg, g)[r][c]
    ensures StepGrid(cfg, g, cnt, rolls, cursor)[r][c] == Tree
  {
  }

  /** With a neighbour effect of 100 a tree rolls only when every
      tree-or-burning neighbour is burning. */
  lemma FullEffectGate(cfg: Config, g: Grid, r: nat, c: nat)
    requires r < |g| && c < |g[r]| && cfg.neighbourEffect == 100
    ensures Gated(cfg, g, r, c) <==>
      g[r][c] == Tree && NeighbourCount(g, r, c, Live) > 0
      && NeighbourCount(g, r, c, {Burning}) == NeighbourCount(g, r, c, Live)
  {
    BurningWithinLive(g, r, c);
  }

  /** With a neighbour effect of 0 the gate asks for no burning neighbour
      at all: any tree with a tree-or-burning neighbour rolls. */
  lemma ZeroEffectGate(cfg: Config, g: Grid, r: nat, c: nat)
    requires r < |g| && c < |g[r]| && cfg.neighbourEffect == 0
    ensures Gated(cfg, g, r, c) <==> g[r][c] == Tree && NeighbourCount(g, r, c, Live) > 0
  {
  }

  /** A 5x5 grid of trees whose centre is burning. */
  function CentreFire(): (g: Grid)
    ensures IsSquare(g, 5)
    ensures forall r, c :: 0 <= r < 5 && 0 <= c < 5 ==> g[r][c] in Live
  {
    seq(5, r => seq(5, c => if r == 2 && c == 2 then Burning else Tree))
  }

  /** Under a neighbour effect of 0 and a certain catch, one transition of
      CentreFire sets every tree on fire, the corners two cells away from
      the fire included, whatever the rolls. */
  lemma ZeroEffectScenario(cfg: Config, cnt: Counters, rolls: nat -> nat, cursor: nat)
    requires cfg.neighbourEffect == 0 && cfg.catchFirePercent == 100
    requires IsSquare(cnt, 5) && cnt[2][2] == 0
    ensures forall r, c :: 0 <= r < 5 && 0 <= c < 5 ==> StepGrid(cfg, CentreFire(), cnt, rolls, cursor)[r][c] == Burning
    ensures StepCounters(cfg, CentreFire(), cnt, rolls, cursor)[2][2] == 1
  {
    var g := CentreFire();
    forall r, c | 0 <= r < 5 && 0 <= c < 5 && g[r][c] == Tree
      ensures Gated(cfg, g, r, c)
    {
      if r < 4 {
        assert Hit(g, r + 1, c, Live) == 1;
      } else {
        assert Hit(g, r - 1, c, Live) == 1;
      }
    }
  }
}
