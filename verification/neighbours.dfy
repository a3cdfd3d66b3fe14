/** Neighbourhood queries: how many of the eight cells at Chebyshev
    distance 1 from a position are in a given set of states. Positions
    outside the grid are skipped; there is no wrap-around. */
module Neighbours {
  import opened Cells

  /** 1 when (i, j) lies inside the grid and its state is in `s`. */
  function Hit(g: Grid, i: int, j: int, s: set<Cell>): (k: nat)
  {
    if 0 <= i < |g| && 0 <= j < |g[i]| && g[i][j] in s then 1 else 0
  }

  /** Reference definition: the eight surrounding positions, listed one by
      one, each contributing when it is inside the grid and in `s`. */
  function NeighbourCount(g: Grid, row: int, col: int, s: set<Cell>): (k: nat)
    ensures k <= 8
  {
    Hit(g, row - 1, col - 1, s) + Hit(g, row - 1, col, s) + Hit(g, row - 1, col + 1, s)
    + Hit(g, row, col - 1, s) + Hit(g, row, col + 1, s)
    + Hit(g, row + 1, col - 1, s) + Hit(g, row + 1, col, s) + Hit(g, row + 1, col + 1, s)
  }

  /** One probe of the 3x3 scan around (row, col); the centre never counts. */
  function Probe(g: Grid, row: int, col: int, s: set<Cell>, i: int, j: int): (k: nat)
  {
    if i == row && j == col then 0 else Hit(g, i, j, s)
  }

  /** Probes of scan row `i` at columns col-1 .. j-1. */
  function ScanCols(g: Grid, row: int, col: int, s: set<Cell>, i: int, j: int): (k: nat)
    decreases j - col + 1
  {
    if j <= col - 1 then 0
    else ScanCols(g, row, col, s, i, j - 1) + Probe(g, row, col, s, i, j - 1)
  }

  /** Probes of the full scan rows row-1 .. i-1. */
  function ScanRows(g: Grid, row: int, col: int, s: set<Cell>, i: int): (k: nat)
    decreases i - row + 1
  {
    if i <= row - 1 then 0
    else ScanRows(g, row, col, s, i - 1) + ScanCols(g, row, col, s, i - 1, col + 2)
  }

  /** A full scan row is its three probes. */
  lemma ScanColsFull(g: Grid, row: int, col: int, s: set<Cell>, i: int)
    ensures ScanCols(g, row, col, s, i, col + 2)
         == Probe(g, row, col, s, i, col - 1) + Probe(g, row, col, s, i, col) + Probe(g, row, col, s, i, col + 1)
  {
    assert ScanCols(g, row, col, s, i, col - 1) == 0;
    assert ScanCols(g, row, col, s, i, col) == Probe(g, row, col, s, i, col - 1);
  }

  lemma ScanIsNeighbourCount(g: Grid, row: int, col: int, s: set<Cell>)
    ensures ScanRows(g, row, col, s, row + 2) == NeighbourCount(g, row, col, s)
  {
    ScanColsFull(g, row, col, s, row - 1);
    ScanColsFull(g, row, col, s, row);
    ScanColsFull(g, row, col, s, row + 1);
    assert ScanRows(g, row, col, s, row - 1) == 0;
    assert ScanRows(g, row, col, s, row) == ScanCols(g, row, col, s, row - 1, col + 2);
  }

  /** The 3x3 scan of `count_burning_neighbors` / `count_tree_neighbors`:
      rows row-1 .. row+1, columns col-1 .. col+1, skipping positions
      outside the grid and the centre itself. */
  method CountNeighbours(g: Grid, row: int, col: int, s: set<Cell>) returns (k: nat)
    ensures k == NeighbourCount(g, row, col, s)
  {
    k := 0;
    var i := row - 1;
    while i <= row + 1
      invariant row - 1 <= i <= row + 2
      invariant k == ScanRows(g, row, col, s, i)
    {
      var j := col - 1;
      while j <= col + 1
        invariant col - 1 <= j <= col + 2
        invariant k == ScanRows(g, row, col, s, i) + ScanCols(g, row, col, s, i, j)
      {
        if 0 <= i < |g| && 0 <= j < |g[i]| {
          if !(i == row && j == col) && g[i][j] in s {
            k := k + 1;
          }
        }
        j := j + 1;
      }
      i := i + 1;
    }
    ScanIsNeighbourCount(g, row, col, s);
  }

  /** Burning neighbours are among the tree-or-burning neighbours. */
  lemma BurningWithinLive(g: Grid, row: int, col: int)
    ensures NeighbourCount(g, row, col, {Burning}) <= NeighbourCount(g, row, col, Live) <= 8
  {
  }

  /** Clipping at the border: an edge cell has at most five neighbours and
      a corner cell at most three. */
  lemma BorderBounds(g: Grid, n: nat, row: int, col: int, s: set<Cell>)
    requires IsSquare(g, n) && 0 <= row < n && 0 <= col < n
    ensures (row == 0 || row == n - 1 || col == 0 || col == n - 1) ==> NeighbourCount(g, row, col, s) <= 5
    ensures (row == 0 || row == n - 1) && (col == 0 || col == n - 1) ==> NeighbourCount(g, row, col, s) <= 3
  {
  }

  /** The state of the cell itself never influences its count. */
  lemma CentreIgnored(g: Grid, row: nat, col: nat, x: Cell, s: set<Cell>)
    requires row < |g| && col < |g[row]|
    ensures NeighbourCount(g[row := g[row][col := x]], row, col, s) == NeighbourCount(g, row, col, s)
  {
  }
}
