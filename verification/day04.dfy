/**
 Day 4: a word search. Part 1 counts every reading of `XMAS` in one of the
 eight directions; part 2 counts the `A`s that sit at the centre of two
 crossing diagonal `MAS`es (each read either way).
 */
module Day04 {
  import opened Grid

  datatype Direction = E | W | N | S | NE | SE | SW | NW

  /** Column step of a direction (`x` grows to the east). */
  function DeltaX(d: Direction): int
  {
    match d
    case E | NE | SE => 1
    case W | SW | NW => -1
    case N | S => 0
  }

  /** Row step of a direction (`y` grows to the south). */
  function DeltaY(d: Direction): int
  {
    match d
    case S | SE | SW => 1
    case N | NE | NW => -1
    case E | W => 0
  }

  const XMAS: seq<char> := ['X', 'M', 'A', 'S']

  /** The cell `k` steps from `(x, y)` in direction `d` is inside the grid and holds `c`. */
  predicate LetterAt(g: seq<seq<char>>, x: int, y: int, d: Direction, k: int, c: char)
  {
    InBounds(g, x + k * DeltaX(d), y + k * DeltaY(d)) && g[y + k * DeltaY(d)][x + k * DeltaX(d)] == c
  }

  /** Reading four cells from `(x, y)` in direction `d`, all inside the grid, spells `XMAS`. */
  predicate XmasAt(g: seq<seq<char>>, x: int, y: int, d: Direction)
  {
    LetterAt(g, x, y, d, 0, 'X') && LetterAt(g, x, y, d, 1, 'M')
    && LetterAt(g, x, y, d, 2, 'A') && LetterAt(g, x, y, d, 3, 'S')
  }

  /** The reading is the word `XMAS`, letter `k` at step `k`. */
  lemma XmasAtReadsWord(g: seq<seq<char>>, x: int, y: int, d: Direction)
    ensures XmasAt(g, x, y, d) <==> forall k :: 0 <= k < 4 ==> LetterAt(g, x, y, d, k, XMAS[k])
  {
    if XmasAt(g, x, y, d) {
      forall k | 0 <= k < 4
        ensures LetterAt(g, x, y, d, k, XMAS[k])
      {
        assert k == 0 || k == 1 || k == 2 || k == 3;
      }
    }
    if forall k :: 0 <= k < 4 ==> LetterAt(g, x, y, d, k, XMAS[k]) {
      assert LetterAt(g, x, y, d, 0, XMAS[0]) && LetterAt(g, x, y, d, 1, XMAS[1]);
      assert LetterAt(g, x, y, d, 2, XMAS[2]) && LetterAt(g, x, y, d, 3, XMAS[3]);
    }
  }

  /** The same reading with the steps multiplied out. */
  lemma XmasAtUnfold(g: seq<seq<char>>, x: int, y: int, d: Direction)
    ensures XmasAt(g, x, y, d) <==>
      (InBounds(g, x, y) && g[y][x] == 'X'
       && InBounds(g, x + DeltaX(d), y + DeltaY(d)) && g[y + DeltaY(d)][x + DeltaX(d)] == 'M'
       && InBounds(g, x + 2 * DeltaX(d), y + 2 * DeltaY(d)) && g[y + 2 * DeltaY(d)][x + 2 * DeltaX(d)] == 'A'
       && InBounds(g, x + 3 * DeltaX(d), y + 3 * DeltaY(d)) && g[y + 3 * DeltaY(d)][x + 3 * DeltaX(d)] == 'S')
  {
    var dx, dy := DeltaX(d), DeltaY(d);
    assert LetterAt(g, x, y, d, 0, 'X') <==> InBounds(g, x, y) && g[y][x] == 'X';
    assert LetterAt(g, x, y, d, 1, 'M') <==> InBounds(g, x + dx, y + dy) && g[y + dy][x + dx] == 'M';
  }

  predicate IsX(c: char) { c == 'X' }
  predicate IsA(c: char) { c == 'A' }

  /** The grid holds an `X` somewhere: the `X`s number at least one. */
  predicate HasX(g: seq<seq<char>>)
  {
    CountCells(g, IsX) >= 1
  }

  // ------------------------------------------------- the eight matchers

  function MatchE(g: seq<seq<char>>, x: nat, y: nat): (r: nat)
    requires Rectangular(g) && InBounds(g, x, y)
    requires |g[0]| >= 4
    ensures r == if XmasAt(g, x, y, E) then 1 else 0
  {
    XmasAtUnfold(g, x, y, E);
    var xLen := |g[0]|;
    if x <= xLen - 4 && g[y][x] == 'X' && g[y][x + 1] == 'M' && g[y][x + 2] == 'A' && g[y][x + 3] == 'S'
    then 1 else 0
  }

  function MatchW(g: seq<seq<char>>, x: nat, y: nat): (r: nat)
    requires Rectangular(g) && InBounds(g, x, y)
    ensures r == if XmasAt(g, x, y, W) then 1 else 0
  {
    XmasAtUnfold(g, x, y, W);
    if x >= 3 && g[y][x] == 'X' && g[y][x - 1] == 'M' && g[y][x - 2] == 'A' && g[y][x - 3] == 'S'
    then 1 else 0
  }

  function MatchN(g: seq<seq<char>>, x: nat, y: nat): (r: nat)
    requires Rectangular(g) && InBounds(g, x, y)
    ensures r == if XmasAt(g, x, y, N) then 1 else 0
  {
    XmasAtUnfold(g, x, y, N);
    if y >= 3 && g[y][x] == 'X' && g[y - 1][x] == 'M' && g[y - 2][x] == 'A' && g[y - 3][x] == 'S'
    then 1 else 0
  }

  function MatchS(g: seq<seq<char>>, x: nat, y: nat): (r: nat)
    requires Rectangular(g) && InBounds(g, x, y)
    requires |g| >= 4
    ensures r == if XmasAt(g, x, y, S) then 1 else 0
  {
    XmasAtUnfold(g, x, y, S);
    var yLen := |g|;
    if y <= yLen - 4 && g[y][x] == 'X' && g[y + 1][x] == 'M' && g[y + 2][x] == 'A' && g[y + 3][x] == 'S'
    then 1 else 0
  }

  function MatchNE(g: seq<seq<char>>, x: nat, y: nat): (r: nat)
    requires Rectangular(g) && InBounds(g, x, y)
    requires |g[0]| >= 4
    ensures r == if XmasAt(g, x, y, NE) then 1 else 0
  {
    XmasAtUnfold(g, x, y, NE);
    var xLen := |g[0]|;
    if x <= xLen - 4 && y >= 3
       && g[y][x] == 'X' && g[y - 1][x + 1] == 'M' && g[y - 2][x + 2] == 'A' && g[y - 3][x + 3] == 'S'
    then 1 else 0
  }

  function MatchSE(g: seq<seq<char>>, x: nat, y: nat): (r: nat)
    requires Rectangular(g) && InBounds(g, x, y)
    requires |g[0]| >= 4
    requires x <= |g[0]| - 4 ==> |g| >= 4
    ensures r == if XmasAt(g, x, y, SE) then 1 else 0
  {
    XmasAtUnfold(g, x, y, SE);
    var xLen, yLen := |g[0]|, |g|;
    if x <= xLen - 4 && y <= yLen - 4
       && g[y][x] == 'X' && g[y + 1][x + 1] == 'M' && g[y + 2][x + 2] == 'A' && g[y + 3][x + 3] == 'S'
    then 1 else 0
  }

  function MatchSW(g: seq<seq<char>>, x: nat, y: nat): (r: nat)
    requires Rectangular(g) && InBounds(g, x, y)
    requires x >= 3 ==> |g| >= 4
    ensures r == if XmasAt(g, x, y, SW) then 1 else 0
  {
    XmasAtUnfold(g, x, y, SW);
    var yLen := |g|;
    if x >= 3 && y <= yLen - 4
       && g[y][x] == 'X' && g[y + 1][x - 1] == 'M' && g[y + 2][x - 2] == 'A' && g[y + 3][x - 3] == 'S'
    then 1 else 0
  }

  function MatchNW(g: seq<seq<char>>, x: nat, y: nat): (r: nat)
    requires Rectangular(g) && InBounds(g, x, y)
    ensures r == if XmasAt(g, x, y, NW) then 1 else 0
  {
    XmasAtUnfold(g, x, y, NW);
    if x >= 3 && y >= 3
       && g[y][x] == 'X' && g[y - 1][x - 1] == 'M' && g[y - 2][x - 2] == 'A' && g[y - 3][x - 3] == 'S'
    then 1 else 0
  }

  // ------------------------------------------------- part 1

  function Ind(b: bool): nat { if b then 1 else 0 }

  /** Number of directions in which `XMAS` can be read starting at `(x, y)`. */
  function Hits(g: seq<seq<char>>, x: int, y: int): nat
  {
    Ind(XmasAt(g, x, y, E)) + Ind(XmasAt(g, x, y, W)) + Ind(XmasAt(g, x, y, N)) + Ind(XmasAt(g, x, y, S))
    + Ind(XmasAt(g, x, y, NE)) + Ind(XmasAt(g, x, y, SE)) + Ind(XmasAt(g, x, y, SW)) + Ind(XmasAt(g, x, y, NW))
  }

  /** Readings starting in the first `n` cells of row `y`. */
  function HitsInRow(g: seq<seq<char>>, y: nat, n: nat): nat
  {
    if n == 0 then 0 else HitsInRow(g, y, n - 1) + Hits(g, n - 1, y)
  }

  /** Readings starting in the first `m` rows. */
  function HitsInRows(g: seq<seq<char>>, m: nat): nat
    requires m <= |g|
  {
    if m == 0 then 0 else HitsInRows(g, m - 1) + HitsInRow(g, m - 1, |g[m - 1]|)
  }

  /** Every reading of `XMAS` in the grid, counted once per start cell and direction. */
  function AllHits(g: seq<seq<char>>): nat
  {
    HitsInRows(g, |g|)
  }

  /** A reading has to start on an `X`. */
  lemma HitsAtX(g: seq<seq<char>>, x: int, y: int)
    requires InBounds(g, x, y)
    ensures Hits(g, x, y) <= 8 * Ind(g[y][x] == 'X')
  {
    XmasAtUnfold(g, x, y, E);
    XmasAtUnfold(g, x, y, W);
    XmasAtUnfold(g, x, y, N);
    XmasAtUnfold(g, x, y, S);
    XmasAtUnfold(g, x, y, NE);
    XmasAtUnfold(g, x, y, SE);
    XmasAtUnfold(g, x, y, SW);
    XmasAtUnfold(g, x, y, NW);
  }

  /** The eight matchers at one cell added up, as the scan adds them on an `X`. */
  function MatchAll(g: seq<seq<char>>, x: nat, y: nat): (r: nat)
    requires Rectangular(g) && InBounds(g, x, y)
    requires |g| >= 4 && |g[0]| >= 4
    ensures r == Hits(g, x, y)
  {
    MatchE(g, x, y) + MatchW(g, x, y) + MatchN(g, x, y) + MatchS(g, x, y)
    + MatchNE(g, x, y) + MatchSE(g, x, y) + MatchSW(g, x, y) + MatchNW(g, x, y)
  }

  /** What the scan adds at one cell is the readings starting there, which need an `X`. */
  lemma ScanCell(g: seq<seq<char>>, x: nat, y: nat, hits: nat)
    requires y < |g| && x < |g[y]|
    requires hits == if g[y][x] == 'X' then Hits(g, x, y) else 0
    ensures HitsInRow(g, y, x + 1) == HitsInRow(g, y, x) + hits
  {
    HitsAtX(g, x, y);
  }

  /** The readings the scan finds at one cell: the matchers run only on an `X`. */
  function CellHits(g: seq<seq<char>>, x: nat, y: nat): (hits: nat)
    requires Rectangular(g) && y < |g| && x < |g[y]|
    requires HasX(g) ==> |g| >= 4 && |g[0]| >= 4
    ensures HitsInRow(g, y, x + 1) == HitsInRow(g, y, x) + hits
  {
    var hits := if g[y][x] == 'X' then CountCellsPositive(g, x, y, IsX); MatchAll(g, x, y) else 0;
    ScanCell(g, x, y, hits);
    hits
  }

  /** The first `n` cells of row `y` start at most eight readings per `X`. */
  lemma {:induction false} HitsInRowBound(g: seq<seq<char>>, y: nat, n: nat)
    requires y < |g| && n <= |g[y]|
    ensures HitsInRow(g, y, n) <= 8 * CountRow(g[y], n, IsX)
    decreases n
  {
    if n > 0 {
      HitsInRowBound(g, y, n - 1);
      HitsAtX(g, n - 1, y);
    }
  }

  /** The first `m` rows start at most eight readings per `X`. */
  lemma {:induction false} HitsInRowsBound(g: seq<seq<char>>, m: nat)
    requires m <= |g|
    ensures HitsInRows(g, m) <= 8 * CountRows(g, m, IsX)
    decreases m
  {
    if m > 0 {
      HitsInRowsBound(g, m - 1);
      HitsInRowBound(g, m - 1, |g[m - 1]|);
    }
  }

  /**
   Part 1: scans every cell and, on an `X`, adds the eight matchers. The result
   is the number of (start cell, direction) readings of `XMAS`, which is at most
   eight per `X`. The grid must be rectangular and non-empty (`search[0]`), and
   when it holds an `X` it must be at least four cells each way, since the
   matchers compute `x_len - 4` and `y_len - 4` in unsigned arithmetic.
   */
  method FindXmas(g: seq<seq<char>>) returns (found: nat)
    requires Rectangular(g)
    requires HasX(g) ==> |g| >= 4 && |g[0]| >= 4
    ensures found == AllHits(g)
    ensures found <= 8 * CountCells(g, IsX)
  {
    found := 0;
    var yLen := |g|;
    for y := 0 to yLen
      invariant found == HitsInRows(g, y)
    {
      var rowHits := FindXmasInRow(g, y);
      found := found + rowHits;
    }
    HitsInRowsBound(g, yLen);
  }

  /** The inner loop of part 1: the readings starting in row `y`, at most eight per `X` of the row. */
  method FindXmasInRow(g: seq<seq<char>>, y: nat) returns (rowHits: nat)
    requires Rectangular(g) && y < |g|
    requires HasX(g) ==> |g| >= 4 && |g[0]| >= 4
    ensures rowHits == HitsInRow(g, y, |g[y]|)
  {
    rowHits := 0;
    var xLen := |g[0]|;
    for x := 0 to xLen
      invariant rowHits == HitsInRow(g, y, x)
    {
      rowHits := rowHits + CellHits(g, x, y);
    }
  }

  // ------------------------------------------------- part 2

  /**
   `(x, y)` holds an `A` with all four diagonal neighbours inside the grid, and
   each diagonal through it holds one `M` and one `S`.
   */
  predicate CrossAt(g: seq<seq<char>>, x: int, y: int)
  {
    InBounds(g, x - 1, y - 1) && InBounds(g, x + 1, y - 1) && InBounds(g, x - 1, y + 1) && InBounds(g, x + 1, y + 1)
    && InBounds(g, x, y) && g[y][x] == 'A'
    && {g[y - 1][x - 1], g[y + 1][x + 1]} == {'M', 'S'}
    && {g[y - 1][x + 1], g[y + 1][x - 1]} == {'M', 'S'}
  }

  /** The four accepted corner layouts are exactly "each diagonal is one `M` and one `S`". */
  function VerifyCross(g: seq<seq<char>>, x: nat, y: nat): (r: bool)
    requires Rectangular(g)
    requires 1 <= y < |g| - 1 && 1 <= x < |g[0]| - 1
    ensures r <==> {g[y - 1][x - 1], g[y + 1][x + 1]} == {'M', 'S'} && {g[y - 1][x + 1], g[y + 1][x - 1]} == {'M', 'S'}
  {
    var nw, ne, sw, se := g[y - 1][x - 1], g[y - 1][x + 1], g[y + 1][x - 1], g[y + 1][x + 1];
    assert {nw, se} == {'M', 'S'} <==> (nw == 'M' && se == 'S') || (nw == 'S' && se == 'M') by {
      if {nw, se} == {'M', 'S'} {
        assert nw in {'M', 'S'} && se in {'M', 'S'};
        assert 'M' in {nw, se} && 'S' in {nw, se};
      }
    }
    assert {ne, sw} == {'M', 'S'} <==> (ne == 'M' && sw == 'S') || (ne == 'S' && sw == 'M') by {
      if {ne, sw} == {'M', 'S'} {
        assert ne in {'M', 'S'} && sw in {'M', 'S'};
        assert 'M' in {ne, sw} && 'S' in {ne, sw};
      }
    }
    (nw == 'M' && ne == 'S' && sw == 'M' && se == 'S')
    || (nw == 'M' && ne == 'M' && sw == 'S' && se == 'S')
    || (nw == 'S' && ne == 'M' && sw == 'S' && se == 'M')
    || (nw == 'S' && ne == 'S' && sw == 'M' && se == 'M')
  }

  function CrossesInRow(g: seq<seq<char>>, y: nat, n: nat): nat
  {
    if n == 0 then 0 else CrossesInRow(g, y, n - 1) + Ind(CrossAt(g, n - 1, y))
  }

  function CrossesInRows(g: seq<seq<char>>, m: nat): nat
    requires m <= |g|
  {
    if m == 0 then 0 else CrossesInRows(g, m - 1) + CrossesInRow(g, m - 1, |g[m - 1]|)
  }

  /** Every `X`-shaped `MAS` pair in the grid, counted once per centre. */
  function AllCrosses(g: seq<seq<char>>): nat
  {
    CrossesInRows(g, |g|)
  }

  /** No cross is centred on the first or the last row. */
  lemma {:induction false} BorderRowHasNoCross(g: seq<seq<char>>, y: nat, n: nat)
    requires y == 0 || y == |g| - 1
    ensures CrossesInRow(g, y, n) == 0
    decreases n
  {
    if n > 0 {
      BorderRowHasNoCross(g, y, n - 1);
    }
  }

  lemma MulLe(a: nat, b: nat, c: nat)
    requires a <= b
    ensures a * c <= b * c
  {
  }

  /** Number of interior positions along a side of length `len`. */
  function Interior(len: nat): nat
  {
    if len >= 2 then len - 2 else 0
  }

  /**
   Part 2: scans the interior cells and counts the `A`s that pass the corner
   check. The result counts every cross in the whole grid, so the interior
   scan misses none. `x_len - 1` underflows on an empty first row once the
   grid has three rows, hence the precondition.
   */
  method FindCrosses(g: seq<seq<char>>) returns (found: nat)
    requires Rectangular(g)
    requires |g| >= 3 ==> |g[0]| >= 1
    ensures found == AllCrosses(g)
    ensures found <= Interior(|g|) * Interior(|g[0]|)
  {
    found := 0;
    var yLen, xLen := |g|, |g[0]|;
    BorderRowHasNoCross(g, 0, |g[0]|);
    var y := 1;
    while y + 1 < yLen
      invariant 1 <= y <= yLen && (y == 1 || y + 1 <= yLen)
      invariant found == CrossesInRows(g, y)
      invariant found <= (y - 1) * Interior(xLen)
    {
      var x := 1;
      while x + 1 < xLen
        invariant 1 <= x <= xLen && (x == 1 || x + 1 <= xLen)
        invariant found == CrossesInRows(g, y) + CrossesInRow(g, y, x)
        invariant found <= (y - 1) * Interior(xLen) + (x - 1)
      {
        if g[y][x] == 'A' {
          if VerifyCross(g, x, y) {
            found := found + 1;
          }
        }
        x := x + 1;
      }
      assert x - 1 <= Interior(xLen);
      assert (y - 1) * Interior(xLen) + Interior(xLen) == y * Interior(xLen);
      y := y + 1;
    }
    if y == yLen - 1 {
      BorderRowHasNoCross(g, y, |g[y]|);
    }
    assert y - 1 <= Interior(yLen);
    MulLe(y - 1, Interior(yLen), Interior(xLen));
  }

  lemma {:induction false} CrossesInRowAtA(g: seq<seq<char>>, y: nat, n: nat)
    requires y < |g| && n <= |g[y]|
    ensures CrossesInRow(g, y, n) <= CountRow(g[y], n, IsA)
    decreases n
  {
    if n > 0 {
      CrossesInRowAtA(g, y, n - 1);
    }
  }

  lemma {:induction false} CrossesInRowsAtA(g: seq<seq<char>>, m: nat)
    requires m <= |g|
    ensures CrossesInRows(g, m) <= CountRows(g, m, IsA)
    decreases m
  {
    if m > 0 {
      CrossesInRowsAtA(g, m - 1);
      CrossesInRowAtA(g, m - 1, |g[m - 1]|);
    }
  }

  /** Every cross has its own `A` at the centre. */
  lemma CrossesAtMostAs(g: seq<seq<char>>)
    ensures AllCrosses(g) <= CountCells(g, IsA)
  {
    CrossesInRowsAtA(g, |g|);
  }
}
