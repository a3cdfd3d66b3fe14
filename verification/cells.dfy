/** Cell states, run configuration and the counting helpers shared by
    every part of the wildfire model. A grid is a square matrix of cell
    states; the burn counters live in a parallel matrix of naturals. */
module Cells {

  /** The four states a grid position can be in. */
  datatype Cell = Empty | Tree | Burning | Burned

  /** Number of cycles a cell burns before it is burned out. */
  const BURN_STAGES: nat := 3

  type Grid = seq<seq<Cell>>
  type Counters = seq<seq<nat>>

  /** States counted as "tree neighbours": a tree, burning or not. */
  const Live: set<Cell> := {Tree, Burning}

  /** The run options after the command line has accepted them. The
      lightning probability itself is not here: whether a strike happens
      in a cycle is an oracle decision. A `maxCycles` of -1 means
      "no cycle limit". */
  datatype Config = Config(
    size: nat,
    density: nat,
    burningPercent: nat,
    catchFirePercent: nat,
    neighbourEffect: nat,
    lightningActive: bool,
    maxCycles: int)

  /** The ranges the command line accepts for each option. */
  predicate ValidConfig(cfg: Config)
  {
    && 5 <= cfg.size <= 40
    && 1 <= cfg.density <= 100
    && 1 <= cfg.burningPercent <= 100
    && 1 <= cfg.catchFirePercent <= 100
    && 0 <= cfg.neighbourEffect <= 100
    && (cfg.maxCycles == -1 || 0 <= cfg.maxCycles <= 10000)
  }

  predicate IsSquare<T>(m: seq<seq<T>>, n: nat)
  {
    |m| == n && forall i :: 0 <= i < n ==> |m[i]| == n
  }

  /** Two matrices have the same shape. */
  predicate SameShape<A, B>(a: seq<seq<A>>, b: seq<seq<B>>)
  {
    |b| == |a| && forall i :: 0 <= i < |a| ==> |b[i]| == |a[i]|
  }

  /** Number of entries of `row` whose value lies in `s`. */
  function RowCount<T(==)>(row: seq<T>, s: set<T>): (k: nat)
    ensures k <= |row|
  {
    if row == [] then 0
    else RowCount(row[..|row| - 1], s) + (if row[|row| - 1] in s then 1 else 0)
  }

  /** Number of entries of the matrix `m` whose value lies in `s`. */
  function GridCount<T(==)>(m: seq<seq<T>>, s: set<T>): (k: nat)
  {
    if m == [] then 0
    else GridCount(m[..|m| - 1], s) + RowCount(m[|m| - 1], s)
  }

  lemma PrefixAll<T>(m: seq<T>)
    ensures m[..|m|] == m
  {
  }

  lemma PrefixSnoc<T>(m: seq<T>, r: nat, x: T)
    requires r < |m| && m[r] == x
    ensures m[..r + 1] == m[..r] + [x]
  {
  }

  lemma RowCountSnoc<T>(row: seq<T>, c: nat, s: set<T>)
    requires c < |row|
    ensures RowCount(row[..c + 1], s) == RowCount(row[..c], s) + (if row[c] in s then 1 else 0)
  {
    assert row[..c + 1][..c] == row[..c];
  }

  lemma GridCountSnoc<T>(m: seq<seq<T>>, r: nat, s: set<T>)
    requires r < |m|
    ensures GridCount(m[..r + 1], s) == GridCount(m[..r], s) + RowCount(m[r], s)
  {
    assert m[..r + 1][..r] == m[..r];
  }

  /** Overwriting one entry moves the count by the membership of the old
      and the new value, and by nothing else. */
  lemma {:induction false} RowCountUpdate<T>(row: seq<T>, j: nat, x: T, s: set<T>)
    requires j < |row|
    ensures RowCount(row[j := x], s) + (if row[j] in s then 1 else 0)
         == RowCount(row, s) + (if x in s then 1 else 0)
    decreases |row|
  {
    var last := |row| - 1;
    if j == last {
      assert row[j := x][..last] == row[..last];
    } else {
      assert row[j := x][..last] == row[..last][j := x];
      RowCountUpdate(row[..last], j, x, s);
    }
  }

  lemma {:induction false} GridCountUpdate<T>(m: seq<seq<T>>, i: nat, j: nat, x: T, s: set<T>)
    requires i < |m| && j < |m[i]|
    ensures GridCount(m[i := m[i][j := x]], s) + (if m[i][j] in s then 1 else 0)
         == GridCount(m, s) + (if x in s then 1 else 0)
    decreases |m|
  {
    var last := |m| - 1;
    var m' := m[i := m[i][j := x]];
    if i == last {
      assert m'[..last] == m[..last];
      RowCountUpdate(m[i], j, x, s);
    } else {
      assert m'[..last] == m[..last][i := m[i][j := x]];
      GridCountUpdate(m[..last], i, j, x, s);
    }
  }

  /** A matrix with no entry in `s` counts zero. */
  lemma {:induction false} GridCountNone<T>(m: seq<seq<T>>, s: set<T>)
    requires forall i, j :: 0 <= i < |m| && 0 <= j < |m[i]| ==> m[i][j] !in s
    ensures GridCount(m, s) == 0
    decreases |m|
  {
    if m != [] {
      var last := |m| - 1;
      GridCountNone(m[..last], s);
      RowCountNone(m[last], s);
    }
  }

  lemma {:induction false} RowCountNone<T>(row: seq<T>, s: set<T>)
    requires forall j :: 0 <= j < |row| ==> row[j] !in s
    ensures RowCount(row, s) == 0
    decreases |row|
  {
    if row != [] {
      RowCountNone(row[..|row| - 1], s);
    }
  }

  /** A matrix with an entry in `s` counts at least one. */
  lemma {:induction false} GridCountSome<T>(m: seq<seq<T>>, i: nat, j: nat, s: set<T>)
    requires i < |m| && j < |m[i]| && m[i][j] in s
    ensures GridCount(m, s) >= 1
    decreases |m|
  {
    var last := |m| - 1;
    if i == last {
      RowCountSome(m[i], j, s);
    } else {
      GridCountSome(m[..last], i, j, s);
    }
  }

  lemma {:induction false} RowCountSome<T>(row: seq<T>, j: nat, s: set<T>)
    requires j < |row| && row[j] in s
    ensures RowCount(row, s) >= 1
    decreases |row|
  {
    if j < |row| - 1 {
      RowCountSome(row[..|row| - 1], j, s);
    }
  }
}
