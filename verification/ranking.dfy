/** Why the simulation stops: a ranking that a lightning strike never
    raises and a transition from a grid with a burning cell strictly
    lowers. A tree weighs BURN_STAGES, as much as a cell that has just
    caught fire; a burning cell weighs the stages it has left, everything
    else nothing. The ranking relies on every burning counter staying
    below BURN_STAGES, which initialisation, strikes and transitions all
    keep. */
module Ranking {
  import opened Cells
  import opened Transition
  import opened Lightning

  /** Every burning cell has burned for fewer than BURN_STAGES cycles. */
  predicate CountersBounded(g: Grid, cnt: Counters)
  {
    && SameShape(g, cnt)
    && forall i, j :: 0 <= i < |g| && 0 <= j < |g[i]| && g[i][j] == Burning ==> cnt[i][j] < BURN_STAGES
  }

  function CellRank(x: Cell, k: nat): (w: nat)
  {
    match x
    case Tree => BURN_STAGES
    case Burning => if k < BURN_STAGES then BURN_STAGES - k else 0
    case _ => 0
  }

  function RowRank(row: seq<Cell>, ks: seq<nat>): (w: nat)
    requires |row| == |ks|
  {
    if row == [] then 0
    else RowRank(row[..|row| - 1], ks[..|ks| - 1]) + CellRank(row[|row| - 1], ks[|ks| - 1])
  }

  function Rank(g: Grid, cnt: Counters): (w: nat)
    requires SameShape(g, cnt)
  {
    if g == [] then 0
    else Rank(g[..|g| - 1], cnt[..|cnt| - 1]) + RowRank(g[|g| - 1], cnt[|cnt| - 1])
  }

  /** Summing a cell-wise inequality over a row: when every cell of `b`
      weighs at most its counterpart in `a`, less one for each cell of `a`
      in `s`, the row sums obey the same inequality. */
  lemma {:induction false} RowRankLe(a: seq<Cell>, ka: seq<nat>, b: seq<Cell>, kb: seq<nat>, s: set<Cell>)
    requires |a| == |ka| == |b| == |kb|
    requires forall j :: 0 <= j < |a| ==> CellRank(b[j], kb[j]) + (if a[j] in s then 1 else 0) <= CellRank(a[j], ka[j])
    ensures RowRank(b, kb) + RowCount(a, s) <= RowRank(a, ka)
    decreases |a|
  {
    if a != [] {
      var l := |a| - 1;
      RowRankLe(a[..l], ka[..l], b[..l], kb[..l], s);
    }
  }

  lemma {:induction false} RankLe(a: Grid, ka: Counters, b: Grid, kb: Counters, s: set<Cell>)
    requires SameShape(a, ka) && SameShape(a, b) && SameShape(a, kb)
    requires forall i, j :: 0 <= i < |a| && 0 <= j < |a[i]| ==>
      CellRank(b[i][j], kb[i][j]) + (if a[i][j] in s then 1 else 0) <= CellRank(a[i][j], ka[i][j])
    ensures SameShape(b, kb)
    ensures Rank(b, kb) + GridCount(a, s) <= Rank(a, ka)
    decreases |a|
  {
    if a != [] {
      var l := |a| - 1;
      RankLe(a[..l], ka[..l], b[..l], kb[..l], s);
      RowRankLe(a[l], ka[l], b[l], kb[l], s);
    }
  }

  lemma {:induction false} RowRankBound(row: seq<Cell>, ks: seq<nat>)
    requires |row| == |ks|
    ensures RowRank(row, ks) <= BURN_STAGES * RowCount(row, Live)
    decreases |row|
  {
    if row != [] {
      RowRankBound(row[..|row| - 1], ks[..|ks| - 1]);
    }
  }

  /** The ranking is at most BURN_STAGES per tree or burning cell. */
  lemma {:induction false} RankBound(g: Grid, cnt: Counters)
    requires SameShape(g, cnt)
    ensures Rank(g, cnt) <= BURN_STAGES * GridCount(g, Live)
    decreases |g|
  {
    if g != [] {
      var l := |g| - 1;
      RankBound(g[..l], cnt[..l]);
      RowRankBound(g[l], cnt[l]);
    }
  }

  /** A transition keeps every burning counter below BURN_STAGES. */
  lemma StepKeepsCountersBounded(cfg: Config, g: Grid, cnt: Counters, rolls: nat -> nat, cursor: nat)
    requires IsSquare(g, |g|) && IsSquare(cnt, |g|) && CountersBounded(g, cnt)
    ensures CountersBounded(StepGrid(cfg, g, cnt, rolls, cursor), StepCounters(cfg, g, cnt, rolls, cursor))
  {
  }

  /** One cell's weight drops by at least one when it was burning and
      never rises otherwise: a burning cell moves one stage on, a tree
      either stays or starts burning with all its stages ahead. */
  lemma NextCellLowersRank(cfg: Config, g: Grid, cnt: Counters, rolls: nat -> nat, cursor: nat, r: nat, c: nat)
    requires IsSquare(g, |g|) && IsSquare(cnt, |g|) && r < |g| && c < |g|
    requires g[r][c] == Burning ==> cnt[r][c] < BURN_STAGES
    ensures var o := NextCell(cfg, g, cnt, rolls, cursor, r, c);
            CellRank(o.state, o.counter) + (if g[r][c] == Burning then 1 else 0) <= CellRank(g[r][c], cnt[r][c])
  {
  }

  /** A transition lowers the ranking by at least the number of burning
      cells it starts from. */
  lemma StepLowersRank(cfg: Config, g: Grid, cnt: Counters, rolls: nat -> nat, cursor: nat)
    requires IsSquare(g, |g|) && IsSquare(cnt, |g|) && CountersBounded(g, cnt)
    ensures var next := StepGrid(cfg, g, cnt, rolls, cursor);
            var counters := StepCounters(cfg, g, cnt, rolls, cursor);
            SameShape(next, counters) && Rank(next, counters) + GridCount(g, {Burning}) <= Rank(g, cnt)
  {
    var next := StepGrid(cfg, g, cnt, rolls, cursor);
    var counters := StepCounters(cfg, g, cnt, rolls, cursor);
    forall i, j | 0 <= i < |g| && 0 <= j < |g[i]|
      ensures CellRank(next[i][j], counters[i][j]) + (if g[i][j] in {Burning} then 1 else 0) <= CellRank(g[i][j], cnt[i][j])
    {
      NextCellLowersRank(cfg, g, cnt, rolls, cursor, i, j);
      assert next[i][j] == NextCell(cfg, g, cnt, rolls, cursor, i, j).state;
      assert counters[i][j] == NextCell(cfg, g, cnt, rolls, cursor, i, j).counter;
    }
    RankLe(g, cnt, next, counters, {Burning});
  }

  /** A strike keeps every burning counter below BURN_STAGES and never
      raises the ranking. */
  lemma StrikeKeepsBounds(cfg: Config, g: Grid, cnt: Counters, strike: bool, picks: nat -> nat, cursor: nat)
    requires cfg.size > 0 && IsSquare(g, cfg.size) && IsSquare(cnt, cfg.size) && CountersBounded(g, cnt)
    ensures var s := Strike(cfg, g, cnt, strike, picks, cursor);
            CountersBounded(s.grid, s.counters) && Rank(s.grid, s.counters) <= Rank(g, cnt)
  {
    var s := Strike(cfg, g, cnt, strike, picks, cursor);
    forall i, j | 0 <= i < |g| && 0 <= j < |g[i]|
      ensures CellRank(s.grid[i][j], s.counters[i][j]) + (if g[i][j] in {} then 1 else 0) <= CellRank(g[i][j], cnt[i][j])
    {
    }
    RankLe(g, cnt, s.grid, s.counters, {});
  }
}
