/** The optional lightning strike, applied to the current grid before the
    transition. Whether a strike happens this cycle is an oracle decision
    `strike` (the source compares a uniform draw with the configured
    probability); the struck position comes from two coordinate picks,
    each reduced modulo the grid size as `rand() % size` does. */
module Lightning {
  import opened Cells

  /** The grid and counters after the strike attempt, and how many
      coordinate picks it used. */
  datatype Struck = Struck(grid: Grid, counters: Counters, used: nat)

  /** The row and column a strike with picks starting at `cursor` hits. */
  function Target(n: nat, picks: nat -> nat, cursor: nat): (t: (nat, nat))
    requires n > 0
    ensures t.0 < n && t.1 < n
  {
    (picks(cursor) % n, picks(cursor + 1) % n)
  }

  /** At most one cell changes, and only from a tree to a burning cell
      whose counter restarts at 0; an inactive feature, a cycle without a
      strike, or a strike on anything but a tree leaves grid and counters
      as they were. Picks are drawn only when a strike happens. */
  function Strike(cfg: Config, g: Grid, cnt: Counters, strike: bool, picks: nat -> nat, cursor: nat): (s: Struck)
    requires cfg.size > 0 && IsSquare(g, cfg.size) && IsSquare(cnt, cfg.size)
    ensures IsSquare(s.grid, cfg.size) && IsSquare(s.counters, cfg.size)
    ensures s.used == if cfg.lightningActive && strike then 2 else 0
    ensures forall r, c :: 0 <= r < cfg.size && 0 <= c < cfg.size ==>
      (s.grid[r][c] == g[r][c] && s.counters[r][c] == cnt[r][c])
      || (&& cfg.lightningActive && strike
          && (r, c) == Target(cfg.size, picks, cursor)
          && g[r][c] == Tree && s.grid[r][c] == Burning && s.counters[r][c] == 0)
    ensures cfg.lightningActive && strike ==>
      var (r, c) := Target(cfg.size, picks, cursor);
      && (g[r][c] == Tree ==> s.grid[r][c] == Burning && s.counters[r][c] == 0)
      && (g[r][c] != Tree ==> s.grid == g && s.counters == cnt)
    ensures !(cfg.lightningActive && strike) ==> s.grid == g && s.counters == cnt
  {
    if cfg.lightningActive && strike then
      var (r, c) := Target(cfg.size, picks, cursor);
      if g[r][c] == Tree then
        Struck(g[r := g[r][c := Burning]], cnt[r := cnt[r][c := 0]], 2)
      else
        Struck(g, cnt, 2)
    else
      Struck(g, cnt, 0)
  }
}
