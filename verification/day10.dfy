/**
 Day 10: a topographic map of digit heights. A hiking trail starts at height
 0 and climbs by exactly one at each step to a horizontally or vertically
 adjacent cell, ending at height 9. A trailhead scores the number of distinct
 ends it reaches (part 1) or the number of trails (part 2).
 */
module Day10 {
  import opened Grid

  datatype Pos = Pos(x: nat, y: nat)

  /** A map character: the source subtracts `'0'` from a byte, which fails below `'0'`. */
  predicate HeightChar(c: char)
  {
    ('0' as int) <= (c as int) < 256
  }

  function LoadRow(line: string): (r: seq<nat>)
    requires forall x :: 0 <= x < |line| ==> HeightChar(line[x])
    ensures |r| == |line|
    ensures forall x :: 0 <= x < |r| ==> r[x] + '0' as int == line[x] as int
  {
    if |line| == 0 then []
    else
      assert HeightChar(line[0]);
      [(line[0] as int - '0' as int) as nat] + LoadRow(line[1..])
  }

  /** Each byte minus `'0'`. */
  function LoadData(lines: seq<string>): (m: seq<seq<nat>>)
    requires forall y, x :: 0 <= y < |lines| && 0 <= x < |lines[y]| ==> HeightChar(lines[y][x])
    ensures |m| == |lines|
    ensures forall y :: 0 <= y < |m| ==> |m[y]| == |lines[y]|
    ensures forall y, x :: 0 <= y < |m| && 0 <= x < |m[y]| ==> m[y][x] + '0' as int == lines[y][x] as int
  {
    if |lines| == 0 then []
    else [LoadRow(lines[0])] + LoadData(lines[1..])
  }

  function Height(m: seq<seq<nat>>, p: Pos): nat
    requires InBounds(m, p.x, p.y)
  {
    m[p.y][p.x]
  }

  /** `b` is a horizontal or vertical neighbour of `a`, one higher. */
  predicate Step(m: seq<seq<nat>>, a: Pos, b: Pos)
  {
    InBounds(m, a.x, a.y) && InBounds(m, b.x, b.y)
    && (if a.x == b.x then a.y == b.y + 1 || b.y == a.y + 1 else a.y == b.y && (a.x == b.x + 1 || b.x == a.x + 1))
    && Height(m, b) == Height(m, a) + 1
  }

  /** A hiking trail: consecutive cells climb by one, and the last is at height 9. */
  ghost predicate IsTrail(m: seq<seq<nat>>, p: seq<Pos>)
  {
    |p| >= 1
    && (forall i :: 0 <= i < |p| ==> InBounds(m, p[i].x, p[i].y))
    && (forall i :: 0 <= i < |p| - 1 ==> Step(m, p[i], p[i + 1]))
    && Height(m, p[|p| - 1]) == 9
  }

  /**
   The ends of every trail from `(x, y)`, one entry per trail, searching north,
   east, south and west in that order.
   */
  function FindTrailEnd(m: seq<seq<nat>>, x: nat, y: nat): (ends: seq<Pos>)
    requires Rectangular(m) && InBounds(m, x, y) && m[y][x] <= 9
    ensures forall e :: e in ends ==> InBounds(m, e.x, e.y) && Height(m, e) == 9
    ensures m[y][x] == 9 ==> ends == [Pos(x, y)]
    decreases 9 - m[y][x], 1
  {
    if m[y][x] == 9 then [Pos(x, y)]
    else Branch(m, x, y, x, y - 1) + Branch(m, x, y, x + 1, y) + Branch(m, x, y, x, y + 1) + Branch(m, x, y, x - 1, y)
  }

  /**
   The ends reached through the neighbour `(nx, ny)`, if it is on the map and
   one higher. For a rectangular map, "on the map" is the source's guards
   `y > 0`, `x < x_len - 1`, `y < y_len - 1` and `x > 0`.
   */
  function Branch(m: seq<seq<nat>>, x: nat, y: nat, nx: int, ny: int): (ends: seq<Pos>)
    requires Rectangular(m) && InBounds(m, x, y) && m[y][x] < 9
    ensures forall e :: e in ends ==> InBounds(m, e.x, e.y) && Height(m, e) == 9
    ensures ends != [] ==> InBounds(m, nx, ny) && m[ny][nx] == m[y][x] + 1
    decreases 9 - m[y][x], 0
  {
    if InBounds(m, nx, ny) && m[ny][nx] == m[y][x] + 1 then FindTrailEnd(m, nx, ny) else []
  }

  /** Along a trail, the height rises by one per step. */
  lemma {:induction false} TrailHeights(m: seq<seq<nat>>, p: seq<Pos>, i: nat)
    requires IsTrail(m, p) && i < |p|
    ensures InBounds(m, p[i].x, p[i].y) && Height(m, p[i]) == Height(m, p[0]) + i
  {
    if i > 0 {
      TrailHeights(m, p, i - 1);
      assert Step(m, p[i - 1], p[i]);
    }
  }

  lemma TrailTail(m: seq<seq<nat>>, p: seq<Pos>)
    requires IsTrail(m, p) && |p| > 1
    ensures IsTrail(m, p[1..]) && Step(m, p[0], p[1])
  {
    var q := p[1..];
    forall i | 0 <= i < |q| - 1
      ensures Step(m, q[i], q[i + 1])
    {
      assert q[i] == p[i + 1] && q[i + 1] == p[i + 2];
    }
  }

  lemma TrailCons(m: seq<seq<nat>>, a: Pos, q: seq<Pos>)
    requires IsTrail(m, q) && Step(m, a, q[0])
    ensures IsTrail(m, [a] + q)
  {
    var p := [a] + q;
    forall i | 0 <= i < |p| - 1
      ensures Step(m, p[i], p[i + 1])
    {
      if i > 0 {
        assert p[i] == q[i - 1] && p[i + 1] == q[i];
      }
    }
  }

  /** Every reported end is the end of a trail from `(x, y)`. */
  lemma {:induction false} FindTrailEndSound(m: seq<seq<nat>>, x: nat, y: nat, e: Pos)
    requires Rectangular(m) && InBounds(m, x, y) && m[y][x] <= 9
    requires e in FindTrailEnd(m, x, y)
    ensures exists p :: IsTrail(m, p) && p[0] == Pos(x, y) && p[|p| - 1] == e
    decreases 9 - m[y][x]
  {
    if m[y][x] == 9 {
      assert IsTrail(m, [Pos(x, y)]);
    } else {
      var n := EndFromNeighbour(m, Pos(x, y), e);
      FindTrailEndSound(m, n.x, n.y, e);
      var q :| IsTrail(m, q) && q[0] == n && q[|q| - 1] == e;
      TrailCons(m, Pos(x, y), q);
      var p := [Pos(x, y)] + q;
      assert p[0] == Pos(x, y) && p[|p| - 1] == e;
    }
  }

  /** Below height 9, every end comes from the search of a climbing neighbour. */
  lemma EndFromNeighbour(m: seq<seq<nat>>, a: Pos, e: Pos) returns (b: Pos)
    requires Rectangular(m) && InBounds(m, a.x, a.y) && m[a.y][a.x] < 9
    requires e in FindTrailEnd(m, a.x, a.y)
    ensures Step(m, a, b) && e in FindTrailEnd(m, b.x, b.y)
  {
    var x, y := a.x, a.y;
    var north := Branch(m, x, y, x, y as int - 1);
    if e in north {
      assert north != [];
      b := Pos(x, y - 1);
    } else if e in Branch(m, x, y, x + 1, y) {
      b := Pos(x + 1, y);
    } else if e in Branch(m, x, y, x, y + 1) {
      b := Pos(x, y + 1);
    } else {
      var west := Branch(m, x, y, x as int - 1, y);
      assert e in west;
      assert west != [];
      b := Pos(x - 1, y);
    }
  }

  /** The end of every trail from `(x, y)` is reported. */
  lemma {:induction false} FindTrailEndComplete(m: seq<seq<nat>>, p: seq<Pos>)
    requires Rectangular(m) && IsTrail(m, p) && Height(m, p[0]) <= 9
    ensures p[|p| - 1] in FindTrailEnd(m, p[0].x, p[0].y)
    decreases |p|
  {
    TrailHeights(m, p, |p| - 1);
    if |p| > 1 {
      TrailTail(m, p);
      var a, b := p[0], p[1];
      FindTrailEndComplete(m, p[1..]);
      assert p[1..][|p[1..]| - 1] == p[|p| - 1];
      NeighbourEnds(m, a, b);
    }
  }

  /** The ends found from a climbing neighbour are among the ends found from the cell. */
  lemma NeighbourEnds(m: seq<seq<nat>>, a: Pos, b: Pos)
    requires Rectangular(m) && Step(m, a, b) && Height(m, b) <= 9
    ensures forall e :: e in FindTrailEnd(m, b.x, b.y) ==> e in FindTrailEnd(m, a.x, a.y)
  {
    assert FindTrailEnd(m, b.x, b.y) == Branch(m, a.x, a.y, b.x, b.y);
  }

  // ---------------------------------------------------------------- scoring

  /** Part 1's scoring: the number of distinct ends. */
  function UniqueEndsScoring(paths: seq<Pos>): (n: nat)
    ensures n <= |paths|
    ensures n == 0 <==> |paths| == 0
  {
    DistinctAtMostLength(paths);
    var ends := set p | p in paths;
    if |paths| > 0 then
      assert paths[0] in ends;
      |ends|
    else
      |ends|
  }

  /** Part 2's scoring: the number of trails, never fewer than the distinct ends. */
  function UniquePathsScoring(paths: seq<Pos>): (n: nat)
    ensures n >= UniqueEndsScoring(paths)
    ensures n == 0 <==> UniqueEndsScoring(paths) == 0
  {
    |paths|
  }

  /** A list has no more distinct elements than entries. */
  lemma {:induction false} DistinctAtMostLength(paths: seq<Pos>)
    ensures |set p | p in paths| <= |paths|
    decreases |paths|
  {
    if |paths| > 0 {
      DistinctAtMostLength(paths[1..]);
      assert (set p | p in paths) == (set p | p in paths[1..]) + {paths[0]};
    }
  }

  function ScoreRow(m: seq<seq<nat>>, y: nat, x: nat, scoring: seq<Pos> -> nat): nat
    requires Rectangular(m) && y < |m| && x <= |m[0]|
    decreases |m[0]| - x
  {
    if x == |m[0]| then 0
    else (if m[y][x] == 0 then scoring(FindTrailEnd(m, x, y)) else 0) + ScoreRow(m, y, x + 1, scoring)
  }

  function ScoreRows(m: seq<seq<nat>>, y: nat, scoring: seq<Pos> -> nat): nat
    requires Rectangular(m) && y <= |m|
    decreases |m| - y
  {
    if y == |m| then 0 else ScoreRow(m, y, 0, scoring) + ScoreRows(m, y + 1, scoring)
  }

  /**
   The scores of the trails from every height-0 cell, added up. Only height-0
   cells are trailheads: a map without one scores 0 under any scoring.
   */
  function ScoreTrailhead(m: seq<seq<nat>>, scoring: seq<Pos> -> nat): (n: nat)
    requires |m| == 0 || Rectangular(m)
    ensures (forall j, k :: 0 <= j < |m| && 0 <= k < |m[j]| ==> m[j][k] != 0) ==> n == 0
  {
    if |m| == 0 then 0
    else
      if forall j, k :: 0 <= j < |m| && 0 <= k < |m[j]| ==> m[j][k] != 0 then
        ScoreRowsNoTrailheads(m, 0, scoring);
        ScoreRows(m, 0, scoring)
      else
        ScoreRows(m, 0, scoring)
  }

  lemma {:induction false} ScoreRowLe(m: seq<seq<nat>>, y: nat, x: nat)
    requires Rectangular(m) && y < |m| && x <= |m[0]|
    ensures ScoreRow(m, y, x, UniqueEndsScoring) <= ScoreRow(m, y, x, UniquePathsScoring)
    decreases |m[0]| - x
  {
    if x < |m[0]| {
      ScoreRowLe(m, y, x + 1);
    }
  }

  lemma {:induction false} ScoreRowsLe(m: seq<seq<nat>>, y: nat)
    requires Rectangular(m) && y <= |m|
    ensures ScoreRows(m, y, UniqueEndsScoring) <= ScoreRows(m, y, UniquePathsScoring)
    decreases |m| - y
  {
    if y < |m| {
      ScoreRowLe(m, y, 0);
      ScoreRowsLe(m, y + 1);
    }
  }

  lemma {:induction false} ScoreRowNoTrailheads(m: seq<seq<nat>>, y: nat, x: nat, scoring: seq<Pos> -> nat)
    requires Rectangular(m) && y < |m| && x <= |m[0]|
    requires forall k :: x <= k < |m[0]| ==> m[y][k] != 0
    ensures ScoreRow(m, y, x, scoring) == 0
    decreases |m[0]| - x
  {
    if x < |m[0]| {
      ScoreRowNoTrailheads(m, y, x + 1, scoring);
    }
  }

  lemma {:induction false} ScoreRowsNoTrailheads(m: seq<seq<nat>>, y: nat, scoring: seq<Pos> -> nat)
    requires Rectangular(m) && y <= |m|
    requires forall j, k :: y <= j < |m| && 0 <= k < |m[0]| ==> m[j][k] != 0
    ensures ScoreRows(m, y, scoring) == 0
    decreases |m| - y
  {
    if y < |m| {
      ScoreRowNoTrailheads(m, y, 0, scoring);
      ScoreRowsNoTrailheads(m, y + 1, scoring);
    }
  }


  /** Part 2: the number of trails from every trailhead. A map without a height-0 cell scores 0. */
  function SumOfTrailheadPaths(m: seq<seq<nat>>): (n: nat)
    requires |m| == 0 || Rectangular(m)
    ensures (forall j, k :: 0 <= j < |m| && 0 <= k < |m[j]| ==> m[j][k] != 0) ==> n == 0
  {
    ScoreTrailhead(m, UniquePathsScoring)
  }

  /**
   Part 1: the number of distinct trail ends from every trailhead. It never
   exceeds part 2's total, and a map without a height-0 cell scores 0.
   */
  function SumOfTrailheadUniqueEnds(m: seq<seq<nat>>): (n: nat)
    requires |m| == 0 || Rectangular(m)
    ensures n <= SumOfTrailheadPaths(m)
    ensures (forall j, k :: 0 <= j < |m| && 0 <= k < |m[j]| ==> m[j][k] != 0) ==> n == 0
  {
    if |m| == 0 then 0
    else
      ScoreRowsLe(m, 0);
      ScoreTrailhead(m, UniqueEndsScoring)
  }
}
