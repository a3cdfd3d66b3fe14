/** Grid initialisation `init_grid`: clear the grid, then place trees by
    rejection sampling. Each attempt picks a row and then a column
    (`rand() % size` twice); an empty position receives a burning tree
    while the burning quota lasts and a plain tree afterwards, any other
    position is skipped. The source loops until every tree is placed; the
    model stops after `attempts` attempts and reports whether it got
    there. */
module Initialisation {
  import opened Cells

  /** Trees to place: density percent of the cells, rounded down. */
  function TargetTrees(cfg: Config): (k: nat)
  {
    cfg.density * (cfg.size * cfg.size) / 100
  }

  /** Of those, burning percent start on fire, rounded down. */
  function TargetBurning(cfg: Config): (k: nat)
  {
    cfg.burningPercent * TargetTrees(cfg) / 100
  }

  /** The quotas fit: no more burning trees than trees, no more trees than
      cells. */
  lemma TargetsFit(cfg: Config)
    requires ValidConfig(cfg)
    ensures TargetBurning(cfg) <= TargetTrees(cfg) <= cfg.size * cfg.size
  {
    var cells := cfg.size * cfg.size;
    var t := TargetTrees(cfg);
    assert cfg.density * cells <= 100 * cells;
    assert cfg.burningPercent * t <= 100 * t;
  }

  /** The cleared grid. */
  function EmptyGrid(n: nat): (g: Grid)
    ensures IsSquare(g, n)
    ensures forall i, j :: 0 <= i < n && 0 <= j < n ==> g[i][j] == Empty
  {
    seq(n, i => seq(n, j => Empty))
  }

  /** Grid plus the trees and burning trees still to place. */
  datatype Placement = Placement(grid: Grid, treesLeft: nat, burningLeft: nat)

  /** One attempt at (row, col): an empty cell receives a burning tree
      while the burning quota lasts and a plain tree afterwards, and the
      tree quota goes down by one; any other cell is skipped and nothing
      changes. */
  function Attempt(g: Grid, n: nat, trees: nat, burning: nat, row: nat, col: nat): (p: Placement)
    requires IsSquare(g, n) && row < n && col < n
    requires 0 < trees && burning <= trees
    ensures IsSquare(p.grid, n)
    ensures p.burningLeft <= p.treesLeft
    ensures g[row][col] == Empty <==> p.treesLeft == trees - 1
    ensures g[row][col] != Empty ==> p == Placement(g, trees, burning)
    ensures g[row][col] == Empty ==>
      && p.grid[row][col] == (if burning > 0 then Burning else Tree)
      && p.burningLeft == (if burning > 0 then burning - 1 else 0)
  {
    if g[row][col] == Empty then
      var x := if burning > 0 then Burning else Tree;
      Placement(g[row := g[row][col := x]], trees - 1, if burning > 0 then burning - 1 else 0)
    else
      Placement(g, trees, burning)
  }

  /** An attempt never overwrites a non-empty cell: at most the picked
      cell changes, from empty to a tree or a burning tree. */
  lemma AttemptFills(g: Grid, n: nat, trees: nat, burning: nat, row: nat, col: nat)
    requires IsSquare(g, n) && row < n && col < n
    requires 0 < trees && burning <= trees
    ensures var p := Attempt(g, n, trees, burning, row, col);
      forall i, j :: 0 <= i < n && 0 <= j < n ==>
        p.grid[i][j] == g[i][j]
        || (i == row && j == col && g[i][j] == Empty && p.grid[i][j] in Live)
  {
  }

  /** The remainder of x by n, by repeated subtraction; `ReduceIsMod`
      shows it is C's `x % n` for the non-negative values `rand()`
      returns. */
  function Reduce(x: nat, n: nat): (r: nat)
    requires n > 0
    ensures r < n && r <= x
    decreases x
  {
    if x < n then x else Reduce(x - n, n)
  }

  lemma {:induction false} ReduceIsMod(x: nat, n: nat)
    requires n > 0
    ensures Reduce(x, n) == x % n
    decreases x
  {
    if x >= n {
      ReduceIsMod(x - n, n);
      ModShift(x - n, n);
    }
  }

  lemma ModShift(y: nat, n: nat)
    requires n > 0
    ensures (y + n) % n == y % n
  {
    ModUnique(y + n, n, y / n + 1, y % n);
  }

  /** The remainder is the unique r in [0, n) with x = n * q + r. */
  lemma ModUnique(x: int, n: int, q: int, r: int)
    requires n > 0 && 0 <= r < n && x == n * q + r
    ensures x % n == r
  {
    var d := x / n - q;
    assert n * d == r - x % n;
    if d > 0 {
      MulAtLeast(n, d);
    } else if d < 0 {
      MulAtLeast(n, -d);
    }
  }

  lemma MulAtLeast(n: int, d: int)
    requires n > 0 && d > 0
    ensures n * d >= n
  {
  }

  /** A coordinate: the pick at `cursor` reduced modulo the grid size. */
  function Coord(picks: nat -> nat, cursor: nat, n: nat): (k: nat)
    requires n > 0
    ensures k < n
  {
    Reduce(picks(cursor), n)
  }


  /** The state of the placement loop: the grid, the trees and burning
      trees still to place, and the position in the pick stream of the
      next pick. */
  datatype Planting = Planting(grid: Grid, treesLeft: nat, burningLeft: nat, next: nat)

  /** A loop state on an n x n grid whose burning quota fits the tree
      quota. */
  predicate Fits(s: Planting, n: nat)
  {
    IsSquare(s.grid, n) && s.burningLeft <= s.treesLeft
  }

  /** One pass of the placement loop: an attempt at the row pick and the
      column pick found at the cursor, which then moves past both. */
  function Advance(s: Planting, n: nat, picks: nat -> nat): (t: Planting)
    requires n > 0 && Fits(s, n) && s.treesLeft > 0
    ensures Fits(t, n) && t.next == s.next + 2
    ensures t.treesLeft == s.treesLeft || t.treesLeft == s.treesLeft - 1
  {
    var a := Attempt(s.grid, n, s.treesLeft, s.burningLeft, Coord(picks, s.next, n), Coord(picks, s.next + 1, n));
    Planting(a.grid, a.treesLeft, a.burningLeft, s.next + 2)
  }

  /** Every tree (burning tree) a pass places is one fewer left to
      place. */
  lemma AdvanceCounts(s: Planting, n: nat, picks: nat -> nat)
    requires n > 0 && Fits(s, n) && s.treesLeft > 0
    ensures var t := Advance(s, n, picks);
      && GridCount(t.grid, Live) + t.treesLeft == GridCount(s.grid, Live) + s.treesLeft
      && GridCount(t.grid, {Burning}) + t.burningLeft == GridCount(s.grid, {Burning}) + s.burningLeft
  {
    var row, col := Coord(picks, s.next, n), Coord(picks, s.next + 1, n);
    if s.grid[row][col] == Empty {
      var x := if s.burningLeft > 0 then Burning else Tree;
      GridCountUpdate(s.grid, row, col, x, Live);
      GridCountUpdate(s.grid, row, col, x, {Burning});
    }
  }

  /** The placement loop of `init_grid` from state s, at most `attempts`
      passes. It stops as soon as no tree is left to place; a run that
      ends with trees left has spent every attempt. */
  function Place(s: Planting, n: nat, picks: nat -> nat, attempts: nat): (p: Planting)
    requires n > 0 && Fits(s, n)
    ensures Fits(p, n) && p.treesLeft <= s.treesLeft
    ensures s.next <= p.next <= s.next + 2 * attempts
    ensures p.treesLeft > 0 ==> p.next == s.next + 2 * attempts
    decreases attempts
  {
    if s.treesLeft == 0 || attempts == 0 then s
    else Place(Advance(s, n, picks), n, picks, attempts - 1)
  }

  /** Place stops once no tree is left or no attempt remains. */
  lemma PlaceDone(s: Planting, n: nat, picks: nat -> nat, attempts: nat)
    requires n > 0 && Fits(s, n) && (s.treesLeft == 0 || attempts == 0)
    ensures Place(s, n, picks, attempts) == s
  {
  }

  /** Otherwise Place makes one pass and goes on from there. */
  lemma PlaceStep(s: Planting, n: nat, picks: nat -> nat, attempts: nat)
    requires n > 0 && Fits(s, n) && s.treesLeft > 0 && attempts > 0
    ensures Place(s, n, picks, attempts) == Place(Advance(s, n, picks), n, picks, attempts - 1)
  {
  }

  /** What Place does to the grid: cells only go from empty to a tree or a
      burning tree. */
  lemma {:induction false} PlaceFills(s: Planting, n: nat, picks: nat -> nat, attempts: nat)
    requires n > 0 && Fits(s, n)
    ensures var p := Place(s, n, picks, attempts);
      forall i, j :: 0 <= i < n && 0 <= j < n ==>
        p.grid[i][j] == s.grid[i][j] || (s.grid[i][j] == Empty && p.grid[i][j] in Live)
    decreases attempts
  {
    if s.treesLeft == 0 || attempts == 0 {
      PlaceDone(s, n, picks, attempts);
    } else {
      var row, col := Coord(picks, s.next, n), Coord(picks, s.next + 1, n);
      var t := Advance(s, n, picks);
      AttemptFills(s.grid, n, s.treesLeft, s.burningLeft, row, col);
      PlaceFills(t, n, picks, attempts - 1);
      var p := Place(t, n, picks, attempts - 1);
      PlaceStep(s, n, picks, attempts);
      forall i, j | 0 <= i < n && 0 <= j < n
        ensures p.grid[i][j] == s.grid[i][j] || (s.grid[i][j] == Empty && p.grid[i][j] in Live)
      {
        assert t.grid[i][j] == s.grid[i][j] || (s.grid[i][j] == Empty && t.grid[i][j] in Live);
      }
    }
  }

  /** The quotas left after Place balance what it placed. */
  lemma {:induction false} PlaceCounts(s: Planting, n: nat, picks: nat -> nat, attempts: nat)
    requires n > 0 && Fits(s, n)
    ensures GridCount(Place(s, n, picks, attempts).grid, Live) + Place(s, n, picks, attempts).treesLeft
      == GridCount(s.grid, Live) + s.treesLeft
    ensures GridCount(Place(s, n, picks, attempts).grid, {Burning}) + Place(s, n, picks, attempts).burningLeft
      == GridCount(s.grid, {Burning}) + s.burningLeft
    decreases attempts
  {
    if s.treesLeft == 0 || attempts == 0 {
      PlaceDone(s, n, picks, attempts);
    } else {
      var t := Advance(s, n, picks);
      PlaceStep(s, n, picks, attempts);
      AdvanceCounts(s, n, picks);
      PlaceCounts(t, n, picks, attempts - 1);
    }
  }

  /** Place draws its picks in pairs. */
  lemma {:induction false} PlaceUsesPairs(s: Planting, n: nat, picks: nat -> nat, attempts: nat)
    requires n > 0 && Fits(s, n)
    ensures (Place(s, n, picks, attempts).next - s.next) % 2 == 0
    decreases attempts
  {
    if s.treesLeft == 0 || attempts == 0 {
      PlaceDone(s, n, picks, attempts);
    } else {
      var t := Advance(s, n, picks);
      PlaceUsesPairs(t, n, picks, attempts - 1);
      PlaceStep(s, n, picks, attempts);
      ModShift(Place(t, n, picks, attempts - 1).next - t.next, 2);
    }
  }

  /** The loop state `init_grid` starts from: the cleared grid, the full
      quotas, picks read from `cursor` on. */
  function Start(cfg: Config, cursor: nat): (s: Planting)
    requires ValidConfig(cfg)
    ensures Fits(s, cfg.size) && s.next == cursor
    ensures forall i, j :: 0 <= i < cfg.size && 0 <= j < cfg.size ==> s.grid[i][j] == Empty
    ensures s.treesLeft == TargetTrees(cfg) && s.burningLeft == TargetBurning(cfg)
  {
    TargetsFit(cfg);
    Planting(EmptyGrid(cfg.size), TargetTrees(cfg), TargetBurning(cfg), cursor)
  }

  /** `init_grid` as a whole: the placement loop on the cleared grid with
      the full quotas. Nothing is burned, and the quotas left over account
      exactly for the trees and burning trees still missing. */
  function Initial(cfg: Config, picks: nat -> nat, cursor: nat, attempts: nat): (p: Planting)
    requires ValidConfig(cfg)
    ensures IsSquare(p.grid, cfg.size)
    ensures forall i, j :: 0 <= i < cfg.size && 0 <= j < cfg.size ==> p.grid[i][j] != Burned
    ensures GridCount(p.grid, Live) + p.treesLeft == TargetTrees(cfg)
    ensures GridCount(p.grid, {Burning}) + p.burningLeft == TargetBurning(cfg)
  {
    var s := Start(cfg, cursor);
    GridCountNone(s.grid, Live);
    GridCountNone(s.grid, {Burning});
    PlaceFills(s, cfg.size, picks, attempts);
    PlaceCounts(s, cfg.size, picks, attempts);
    Place(s, cfg.size, picks, attempts)
  }

  /** The placement loop of `init_grid`, one attempt per pass; it computes
      Place. */
  method PlaceLoop(s0: Planting, n: nat, picks: nat -> nat, attempts: nat) returns (s: Planting)
    requires n > 0 && Fits(s0, n)
    ensures s == Place(s0, n, picks, attempts)
  {
    s := s0;
    var left: nat := attempts;
    while s.treesLeft > 0 && left > 0
      invariant Fits(s, n) && Place(s, n, picks, left) == Place(s0, n, picks, attempts)
      decreases left
    {
      s, left := Advance(s, n, picks), left - 1;
    }
  }

  /** `init_grid` with at most `attempts` attempts, drawing coordinate
      picks from `picks` starting at `cursor`. It computes Initial: the
      same grid, the same picks, and completion exactly when no tree is
      left to place. Cells are only ever empty, trees or burning. When
      every tree got placed the grid holds exactly TargetTrees non-empty
      cells of which exactly TargetBurning burn; otherwise all attempts
      were spent and fewer trees stand. */
  method InitGrid(cfg: Config, picks: nat -> nat, cursor: nat, attempts: nat)
    returns (g: Grid, used: nat, complete: bool)
    requires ValidConfig(cfg)
    ensures g == Initial(cfg, picks, cursor, attempts).grid
    ensures cursor + used == Initial(cfg, picks, cursor, attempts).next
    ensures complete <==> Initial(cfg, picks, cursor, attempts).treesLeft == 0
    ensures IsSquare(g, cfg.size)
    ensures forall i, j :: 0 <= i < cfg.size && 0 <= j < cfg.size ==> g[i][j] != Burned
    ensures GridCount(g, Live) <= TargetTrees(cfg) && GridCount(g, {Burning}) <= TargetBurning(cfg)
    ensures complete ==> GridCount(g, Live) == TargetTrees(cfg) && GridCount(g, {Burning}) == TargetBurning(cfg)
    ensures !complete ==> used == 2 * attempts && GridCount(g, Live) < TargetTrees(cfg)
    ensures used <= 2 * attempts && used % 2 == 0
  {
    var s := PlaceLoop(Start(cfg, cursor), cfg.size, picks, attempts);
    PlaceUsesPairs(Start(cfg, cursor), cfg.size, picks, attempts);
    g, used, complete := s.grid, s.next - cursor, s.treesLeft == 0;
  }
}
