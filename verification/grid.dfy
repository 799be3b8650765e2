/** Two-dimensional grids stored as a sequence of rows, indexed `g[y][x]`. */
module Grid {

  /** At least one row, and every row as long as the first. */
  predicate Rectangular<T>(g: seq<seq<T>>)
  {
    |g| > 0 && forall y :: 0 <= y < |g| ==> |g[y]| == |g[0]|
  }

  predicate InBounds<T>(g: seq<seq<T>>, x: int, y: int)
  {
    0 <= y < |g| && 0 <= x < |g[y]|
  }

  /** The grid with cell `(x, y)` replaced by `v`. */
  function Set<T>(g: seq<seq<T>>, x: nat, y: nat, v: T): (r: seq<seq<T>>)
    requires InBounds(g, x, y)
    ensures |r| == |g|
    ensures forall j :: 0 <= j < |g| ==> |r[j]| == |g[j]|
    ensures Rectangular(g) ==> Rectangular(r)
    ensures r[y][x] == v
    ensures forall j, i :: 0 <= j < |g| && 0 <= i < |g[j]| && (j != y || i != x) ==> r[j][i] == g[j][i]
  {
    g[y := g[y][x := v]]
  }

  /** Number of cells in the first `n` entries of `row` satisfying `p`. */
  function CountRow<T>(row: seq<T>, n: nat, p: T -> bool): (c: nat)
    requires n <= |row|
    ensures c <= n
  {
    if n == 0 then 0 else CountRow(row, n - 1, p) + (if p(row[n - 1]) then 1 else 0)
  }

  /** Number of cells in the first `m` rows satisfying `p`. */
  function CountRows<T>(g: seq<seq<T>>, m: nat, p: T -> bool): nat
    requires m <= |g|
  {
    if m == 0 then 0 else CountRows(g, m - 1, p) + CountRow(g[m - 1], |g[m - 1]|, p)
  }

  function CountCells<T>(g: seq<seq<T>>, p: T -> bool): nat
  {
    CountRows(g, |g|, p)
  }

  lemma {:induction false} CountRowSet<T>(row: seq<T>, n: nat, x: nat, v: T, p: T -> bool)
    requires n <= |row| && x < |row|
    ensures CountRow(row[x := v], n, p)
            == CountRow(row, n, p) + (if x < n then (if p(v) then 1 else 0) - (if p(row[x]) then 1 else 0) else 0)
    decreases n
  {
    if n > 0 {
      CountRowSet(row, n - 1, x, v, p);
    }
  }

  lemma {:induction false} CountRowsSet<T>(g: seq<seq<T>>, m: nat, x: nat, y: nat, v: T, p: T -> bool)
    requires m <= |g| && InBounds(g, x, y)
    ensures CountRows(Set(g, x, y, v), m, p)
            == CountRows(g, m, p) + (if y < m then (if p(v) then 1 else 0) - (if p(g[y][x]) then 1 else 0) else 0)
    decreases m
  {
    if m > 0 {
      CountRowsSet(g, m - 1, x, y, v, p);
      if m - 1 == y {
        CountRowSet(g[y], |g[y]|, x, v, p);
      } else {
        assert Set(g, x, y, v)[m - 1] == g[m - 1];
      }
    }
  }

  /** Replacing one cell changes the count by at most the contribution of that cell. */
  lemma CountCellsSet<T>(g: seq<seq<T>>, x: nat, y: nat, v: T, p: T -> bool)
    requires InBounds(g, x, y)
    ensures CountCells(Set(g, x, y, v), p)
            == CountCells(g, p) + (if p(v) then 1 else 0) - (if p(g[y][x]) then 1 else 0)
  {
    CountRowsSet(g, |g|, x, y, v, p);
  }

  /** Number of cells of a grid. */
  function Cells<T>(g: seq<seq<T>>): nat
  {
    if |g| == 0 then 0 else Cells(g[..|g| - 1]) + |g[|g| - 1]|
  }

  lemma {:induction false} CountRowPositive<T>(row: seq<T>, n: nat, x: nat, p: T -> bool)
    requires x < n <= |row| && p(row[x])
    ensures CountRow(row, n, p) >= 1
    decreases n
  {
    if x < n - 1 {
      CountRowPositive(row, n - 1, x, p);
    }
  }

  lemma {:induction false} CountRowsPositive<T>(g: seq<seq<T>>, m: nat, x: nat, y: nat, p: T -> bool)
    requires y < m <= |g| && x < |g[y]| && p(g[y][x])
    ensures CountRows(g, m, p) >= 1
    decreases m
  {
    if y < m - 1 {
      CountRowsPositive(g, m - 1, x, y, p);
    } else {
      CountRowPositive(g[y], |g[y]|, x, p);
    }
  }

  /** A grid with a cell satisfying `p` has a positive count. */
  lemma CountCellsPositive<T>(g: seq<seq<T>>, x: nat, y: nat, p: T -> bool)
    requires InBounds(g, x, y) && p(g[y][x])
    ensures CountCells(g, p) >= 1
  {
    CountRowsPositive(g, |g|, x, y, p);
  }
  lemma {:induction false} CountRowAll<T>(row: seq<T>, n: nat, p: T -> bool)
    requires n <= |row| && forall i :: 0 <= i < n ==> p(row[i])
    ensures CountRow(row, n, p) == n
    decreases n
  {
    if n > 0 {
      CountRowAll(row, n - 1, p);
    }
  }

  lemma {:induction false} CountRowsAll<T>(g: seq<seq<T>>, m: nat, p: T -> bool)
    requires m <= |g| && forall j, i :: 0 <= j < m && 0 <= i < |g[j]| ==> p(g[j][i])
    ensures CountRows(g, m, p) == Cells(g[..m])
    decreases m
  {
    if m > 0 {
      CountRowsAll(g, m - 1, p);
      CountRowAll(g[m - 1], |g[m - 1]|, p);
      assert g[..m][..m - 1] == g[..m - 1];
    }
  }

  /** When every cell satisfies `p`, the count is the number of cells. */
  lemma CountCellsAll<T>(g: seq<seq<T>>, p: T -> bool)
    requires forall j, i :: 0 <= j < |g| && 0 <= i < |g[j]| ==> p(g[j][i])
    ensures CountCells(g, p) == Cells(g)
  {
    CountRowsAll(g, |g|, p);
    assert g[..|g|] == g;
  }

  lemma {:induction false} CountRowNone<T>(row: seq<T>, n: nat, p: T -> bool)
    requires n <= |row| && forall i :: 0 <= i < n ==> !p(row[i])
    ensures CountRow(row, n, p) == 0
    decreases n
  {
    if n > 0 {
      CountRowNone(row, n - 1, p);
    }
  }

  lemma {:induction false} CountRowsNone<T>(g: seq<seq<T>>, m: nat, p: T -> bool)
    requires m <= |g| && forall j, i :: 0 <= j < m && 0 <= i < |g[j]| ==> !p(g[j][i])
    ensures CountRows(g, m, p) == 0
    decreases m
  {
    if m > 0 {
      CountRowsNone(g, m - 1, p);
      CountRowNone(g[m - 1], |g[m - 1]|, p);
    }
  }

  /** When no cell satisfies `p`, the count is zero. */
  lemma CountCellsNone<T>(g: seq<seq<T>>, p: T -> bool)
    requires forall j, i :: 0 <= j < |g| && 0 <= i < |g[j]| ==> !p(g[j][i])
    ensures CountCells(g, p) == 0
  {
    CountRowsNone(g, |g|, p);
  }
}
