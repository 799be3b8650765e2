/**
 Day 6: a guard walks a lab, turning right at obstacles, until it steps off
 the lab or is caught in a loop. Part 1 counts the cells it visits; part 2
 counts the visited cells where one extra obstacle would trap it in a loop.
 The walk need not end, so it takes a `fuel` bound on the number of steps.
 */
module Day06 {
  import opened Common
  import opened Grid

  datatype MapItem = Empty | Obstacle | Guard | Visited

  datatype Direction = North | East | South | West

  datatype GuardPath = Exit | Looping

  // ---------------------------------------------------------------- the lab

  predicate MapChar(c: char)
  {
    c == '.' || c == '#' || c == '^'
  }

  function ItemOf(c: char): MapItem
    requires MapChar(c)
  {
    if c == '.' then Empty else if c == '#' then Obstacle else Guard
  }

  /** The character an item is drawn with (`X` for a visited cell). */
  function CharOf(item: MapItem): char
  {
    match item
    case Empty => '.'
    case Obstacle => '#'
    case Guard => '^'
    case Visited => 'X'
  }

  /**
   The lab read from its lines (any other character is a panic in the source,
   so it is excluded here). Drawing the lab gives the lines back.
   */
  function LoadMap(lines: seq<string>): (r: seq<seq<MapItem>>)
    requires forall y, x :: 0 <= y < |lines| && 0 <= x < |lines[y]| ==> MapChar(lines[y][x])
    ensures |r| == |lines| && forall y :: 0 <= y < |r| ==> |r[y]| == |lines[y]|
    ensures forall y, x :: 0 <= y < |r| && 0 <= x < |r[y]| ==> CharOf(r[y][x]) == lines[y][x] && r[y][x] != Visited
  {
    assert forall c :: MapChar(c) ==> CharOf(ItemOf(c)) == c && ItemOf(c) != Visited;
    seq(|lines|, y requires 0 <= y < |lines| => seq(|lines[y]|, x requires 0 <= x < |lines[y]| => ItemOf(lines[y][x])))
  }

  predicate HasGuard(lab: seq<seq<MapItem>>)
  {
    exists y, x :: 0 <= y < |lab| && 0 <= x < |lab[y]| && lab[y][x] == Guard
  }

  /** First guard in a row, from the left. */
  function GuardInRow(row: seq<MapItem>): (r: Option<nat>)
    ensures r.None? <==> Guard !in row
    ensures r.Some? ==> r.value < |row| && row[r.value] == Guard && Guard !in row[..r.value]
  {
    if |row| == 0 then None
    else if row[0] == Guard then Some(0)
    else
      match GuardInRow(row[1..])
      case None => None
      case Some(i) =>
        assert row[..i + 1] == [row[0]] + row[1..][..i];
        Some(i + 1)
  }

  function LocateFrom(lab: seq<seq<MapItem>>, y: nat): (r: Option<(nat, nat)>)
    ensures r.None? <==> forall j, i :: y <= j < |lab| && 0 <= i < |lab[j]| ==> lab[j][i] != Guard
    ensures r.Some? ==> y <= r.value.1 && InBounds(lab, r.value.0, r.value.1)
    decreases |lab| - y
  {
    if y >= |lab| then None
    else
      match GuardInRow(lab[y])
      case Some(x) => Some((x, y))
      case None => LocateFrom(lab, y + 1)
  }

  /** The first guard in reading order: top row first, left to right. */
  function LocateGuard(lab: seq<seq<MapItem>>): (r: Option<(nat, nat)>)
    ensures r.None? <==> !HasGuard(lab)
    ensures r.Some? ==> InBounds(lab, r.value.0, r.value.1) && lab[r.value.1][r.value.0] == Guard
    ensures r.Some? ==> forall j, i :: 0 <= j < r.value.1 && 0 <= i < |lab[j]| ==> lab[j][i] != Guard
    ensures r.Some? ==> forall i :: 0 <= i < r.value.0 ==> lab[r.value.1][i] != Guard
  {
    LocateFromFirst(lab, 0);
    LocateFrom(lab, 0)
  }

  lemma {:induction false} LocateFromFirst(lab: seq<seq<MapItem>>, y: nat)
    ensures LocateFrom(lab, y).Some? ==>
      var (gx, gy) := LocateFrom(lab, y).value;
      lab[gy][gx] == Guard
      && (forall j, i :: y <= j < gy && 0 <= i < |lab[j]| ==> lab[j][i] != Guard)
      && (forall i :: 0 <= i < gx ==> lab[gy][i] != Guard)
    decreases |lab| - y
  {
    if y < |lab| {
      match GuardInRow(lab[y])
      case Some(x) =>
        forall i | 0 <= i < x
          ensures lab[y][i] != Guard
        {
          assert lab[y][..x][i] == lab[y][i];
        }
      case None =>
        LocateFromFirst(lab, y + 1);
    }
  }

  // ---------------------------------------------------------------- loop detection

  /** Some earlier consecutive pair of turns equals the last two turns. */
  predicate RepeatsLastPair(turns: seq<(nat, nat)>)
  {
    |turns| >= 2 &&
    exists i :: 0 <= i < |turns| - 2 && turns[i] == turns[|turns| - 2] && turns[i + 1] == turns[|turns| - 1]
  }

  function SearchPair(turns: seq<(nat, nat)>, i: nat): (r: bool)
    requires |turns| >= 2 && i <= |turns| - 2
    ensures r <==> exists j :: i <= j < |turns| - 2 && turns[j] == turns[|turns| - 2] && turns[j + 1] == turns[|turns| - 1]
    decreases |turns| - i
  {
    if i == |turns| - 2 then false
    else (turns[i] == turns[|turns| - 2] && turns[i + 1] == turns[|turns| - 1]) || SearchPair(turns, i + 1)
  }

  /**
   The guard is looping once it has turned more than three times and its last
   two turns happened, one right after the other, at the same places before.
   */
  function GuardLooping(turns: seq<(nat, nat)>): (r: bool)
    ensures r <==> |turns| > 3 && RepeatsLastPair(turns)
    ensures |turns| <= 3 ==> !r
  {
    |turns| > 3 && SearchPair(turns, 0)
  }

  // ---------------------------------------------------------------- the walk

  function DX(d: Direction): int
  {
    match d
    case East => 1
    case West => -1
    case _ => 0
  }

  function DY(d: Direction): int
  {
    match d
    case South => 1
    case North => -1
    case _ => 0
  }

  /** A quarter turn clockwise. */
  function TurnRight(d: Direction): Direction
  {
    match d
    case North => East
    case East => South
    case South => West
    case West => North
  }

  datatype Walker = Walker(lab: seq<seq<MapItem>>, x: nat, y: nat, dir: Direction, turns: seq<(nat, nat)>)

  /** The guard stands inside a rectangular lab, not on an obstacle, and is not yet looping. */
  predicate Valid(w: Walker)
  {
    Rectangular(w.lab) && InBounds(w.lab, w.x, w.y) && w.lab[w.y][w.x] != Obstacle && !GuardLooping(w.turns)
  }

  /** The guard stands on the border, facing off the lab. */
  predicate FacingOut(w: Walker)
  {
    !InBounds(w.lab, w.x + DX(w.dir), w.y + DY(w.dir))
  }

  predicate ObstacleAhead(w: Walker)
  {
    !FacingOut(w) && w.lab[w.y + DY(w.dir)][w.x + DX(w.dir)] == Obstacle
  }

  datatype Outcome = Done(path: GuardPath, lab: seq<seq<MapItem>>) | Next(walker: Walker)

  /** After a move or turn, the loop check of the source. */
  function CheckLoop(w: Walker): Outcome
  {
    if GuardLooping(w.turns) then Done(Looping, w.lab) else Next(w)
  }

  /** What one pass of the walking loop achieves (the contract of `Step`). */
  predicate Stepped(w: Walker, r: Outcome)
    requires Valid(w)
  {
    ((r.Done? && r.path == Exit) <==> FacingOut(w))
    && (r.Done? ==> r.lab == Set(w.lab, w.x, w.y, Visited))
    && (r.Done? && r.path == Looping ==> ObstacleAhead(w) && GuardLooping(w.turns + [(w.x, w.y)]))
    && (r.Next? ==> Valid(r.walker) && r.walker.lab == Set(w.lab, w.x, w.y, Visited) && !FacingOut(w))
    && (r.Next? && ObstacleAhead(w) ==>
          r.walker.x == w.x && r.walker.y == w.y && r.walker.dir == TurnRight(w.dir)
          && r.walker.turns == w.turns + [(w.x, w.y)])
    && (r.Next? && !ObstacleAhead(w) ==>
          r.walker.x == w.x + DX(w.dir) && r.walker.y == w.y + DY(w.dir) && r.walker.dir == w.dir
          && r.walker.turns == w.turns)
  }

  function StepNorth(w: Walker): (r: Outcome)
    requires Valid(w) && w.dir == North
    ensures Stepped(w, r)
  {
    var m := Set(w.lab, w.x, w.y, Visited);
    var (x, y) := (w.x, w.y);
    if y == 0 then Done(Exit, m)
    else if m[y - 1][x] == Obstacle then CheckLoop(Walker(m, x, y, East, w.turns + [(x, y)]))
    else CheckLoop(Walker(m, x, y - 1, North, w.turns))
  }

  function StepEast(w: Walker): (r: Outcome)
    requires Valid(w) && w.dir == East
    ensures Stepped(w, r)
  {
    var m := Set(w.lab, w.x, w.y, Visited);
    var (x, y) := (w.x, w.y);
    if x == |m[0]| - 1 then Done(Exit, m)
    else if m[y][x + 1] == Obstacle then CheckLoop(Walker(m, x, y, South, w.turns + [(x, y)]))
    else CheckLoop(Walker(m, x + 1, y, East, w.turns))
  }

  function StepSouth(w: Walker): (r: Outcome)
    requires Valid(w) && w.dir == South
    ensures Stepped(w, r)
  {
    var m := Set(w.lab, w.x, w.y, Visited);
    var (x, y) := (w.x, w.y);
    if y == |m| - 1 then Done(Exit, m)
    else if m[y + 1][x] == Obstacle then CheckLoop(Walker(m, x, y, West, w.turns + [(x, y)]))
    else CheckLoop(Walker(m, x, y + 1, South, w.turns))
  }

  function StepWest(w: Walker): (r: Outcome)
    requires Valid(w) && w.dir == West
    ensures Stepped(w, r)
  {
    var m := Set(w.lab, w.x, w.y, Visited);
    var (x, y) := (w.x, w.y);
    if x == 0 then Done(Exit, m)
    else if m[y][x - 1] == Obstacle then CheckLoop(Walker(m, x, y, North, w.turns + [(x, y)]))
    else CheckLoop(Walker(m, x - 1, y, West, w.turns))
  }

  /**
   One pass of the walking loop: mark the guard's cell visited, then leave the
   lab, turn right before an obstacle (recording the turn), or step forward.
   The source tests each direction's edge on its own (`y == 0`, `x == len - 1`,
   ...); on a rectangular lab each test is exactly "facing off the lab".
   */
  function Step(w: Walker): (r: Outcome)
    requires Valid(w)
    ensures (r.Done? && r.path == Exit) <==> FacingOut(w)
    ensures r.Done? ==> r.lab == Set(w.lab, w.x, w.y, Visited)
    ensures r.Done? && r.path == Looping ==> ObstacleAhead(w) && GuardLooping(w.turns + [(w.x, w.y)])
    ensures r.Next? ==> Valid(r.walker) && r.walker.lab == Set(w.lab, w.x, w.y, Visited) && !FacingOut(w)
    ensures r.Next? && ObstacleAhead(w) ==>
      r.walker.x == w.x && r.walker.y == w.y && r.walker.dir == TurnRight(w.dir)
      && r.walker.turns == w.turns + [(w.x, w.y)]
    ensures r.Next? && !ObstacleAhead(w) ==>
      r.walker.x == w.x + DX(w.dir) && r.walker.y == w.y + DY(w.dir) && r.walker.dir == w.dir
      && r.walker.turns == w.turns
  {
    match w.dir
    case North => StepNorth(w)
    case East => StepEast(w)
    case South => StepSouth(w)
    case West => StepWest(w)
  }

  /** `b` is `a` after some walking: same shape, same obstacles, and visited cells stay visited. */
  predicate Evolves(a: seq<seq<MapItem>>, b: seq<seq<MapItem>>)
  {
    |a| == |b| && (forall j :: 0 <= j < |a| ==> |a[j]| == |b[j]|)
    && (forall j, i :: 0 <= j < |a| && 0 <= i < |a[j]| ==>
          (a[j][i] == Obstacle <==> b[j][i] == Obstacle) && (a[j][i] == Visited ==> b[j][i] == Visited))
  }

  /**
   The walk from `w` for at most `fuel` steps; `None` when the fuel runs out.
   The final lab keeps every obstacle, and the starting cell is visited.
   */
  function Travel(w: Walker, fuel: nat): (r: Option<(GuardPath, seq<seq<MapItem>>)>)
    requires Valid(w)
    ensures r.Some? ==> Evolves(w.lab, r.value.1) && r.value.1[w.y][w.x] == Visited
    decreases fuel
  {
    if fuel == 0 then None
    else
      match Step(w)
      case Done(p, m) => Some((p, m))
      case Next(w') => Travel(w', fuel - 1)
  }

  /** The walk from the first guard, facing north. */
  function TravelMap(lab: seq<seq<MapItem>>, fuel: nat): (r: Option<(GuardPath, seq<seq<MapItem>>)>)
    requires Rectangular(lab) && HasGuard(lab)
    ensures r.Some? ==> Evolves(lab, r.value.1)
    ensures r.Some? ==> var (gx, gy) := LocateGuard(lab).value; r.value.1[gy][gx] == Visited
  {
    var (gx, gy) := LocateGuard(lab).value;
    Travel(Walker(lab, gx, gy, North, []), fuel)
  }

  predicate IsVisited(item: MapItem) { item == Visited }

  /** The number of cells marked visited: 0 exactly when no cell is. */
  function CountVisited(lab: seq<seq<MapItem>>): (n: nat)
    ensures n == 0 <==> forall j, i :: 0 <= j < |lab| && 0 <= i < |lab[j]| ==> lab[j][i] != Visited
  {
    if forall j, i :: 0 <= j < |lab| && 0 <= i < |lab[j]| ==> lab[j][i] != Visited then
      CountCellsNone(lab, IsVisited);
      CountCells(lab, IsVisited)
    else
      var j, i :| 0 <= j < |lab| && 0 <= i < |lab[j]| && lab[j][i] == Visited;
      CountCellsPositive(lab, i, j, IsVisited);
      CountCells(lab, IsVisited)
  }

  /** Part 1: the number of visited cells, at least the starting cell. */
  function CountPath(lab: seq<seq<MapItem>>, fuel: nat): (r: Option<nat>)
    requires Rectangular(lab) && HasGuard(lab)
    ensures r.Some? ==> r.value >= 1
  {
    match TravelMap(lab, fuel)
    case None => None
    case Some((_, m)) =>
      var (gx, gy) := LocateGuard(lab).value;
      CountCellsPositive(m, gx, gy, IsVisited);
      Some(CountVisited(m))
  }

  // ---------------------------------------------------------------- part 2

  /** Cell `(x, y)` is tried for an extra obstacle: visited in the walk, and no guard there at the start. */
  predicate Candidate(walked: seq<seq<MapItem>>, clean: seq<seq<MapItem>>, x: int, y: int)
  {
    InBounds(walked, x, y) && InBounds(clean, x, y) && walked[y][x] == Visited && clean[y][x] != Guard
  }

  /** The clean lab with one extra obstacle still has a guard, so it can be walked. */
  lemma TrialHasGuard(clean: seq<seq<MapItem>>, x: nat, y: nat)
    requires Rectangular(clean) && HasGuard(clean) && InBounds(clean, x, y) && clean[y][x] != Guard
    ensures Rectangular(Set(clean, x, y, Obstacle)) && HasGuard(Set(clean, x, y, Obstacle))
  {
    var j, i :| 0 <= j < |clean| && 0 <= i < |clean[j]| && clean[j][i] == Guard;
    assert Set(clean, x, y, Obstacle)[j][i] == Guard;
  }

  function Ind(b: bool): nat { if b then 1 else 0 }

  /** Looping trials among the first `n` cells of row `y`; `None` when a trial runs out of fuel. */
  function LoopsInRow(walked: seq<seq<MapItem>>, clean: seq<seq<MapItem>>, y: nat, n: nat, fuel: nat): Option<nat>
    requires Rectangular(clean) && HasGuard(clean)
  {
    if n == 0 then Some(0)
    else
      var rest := LoopsInRow(walked, clean, y, n - 1, fuel);
      if !Candidate(walked, clean, n - 1, y) then rest
      else
        TrialHasGuard(clean, n - 1, y);
        var trial := TravelMap(Set(clean, n - 1, y, Obstacle), fuel);
        if rest.None? || trial.None? then None
        else Some(rest.value + Ind(trial.value.0 == Looping))
  }

  function LoopsInRows(walked: seq<seq<MapItem>>, clean: seq<seq<MapItem>>, m: nat, fuel: nat): Option<nat>
    requires Rectangular(clean) && HasGuard(clean) && m <= |walked|
  {
    if m == 0 then Some(0)
    else
      var rest := LoopsInRows(walked, clean, m - 1, fuel);
      var row := LoopsInRow(walked, clean, m - 1, |walked[0]|, fuel);
      if rest.None? || row.None? then None else Some(rest.value + row.value)
  }

  /**
   Part 2: for every visited cell that did not hold a guard at the start, walk
   the clean lab with an obstacle added there and count the loops. At most
   every visited cell but the start is tried, so the count is below part 1's.
   */
  function CountGuardLoops(clean: seq<seq<MapItem>>, fuel: nat): (r: Option<nat>)
    requires Rectangular(clean) && HasGuard(clean)
    ensures r.Some? ==> CountPath(clean, fuel).Some? && r.value <= CountPath(clean, fuel).value - 1
  {
    match TravelMap(clean, fuel)
    case None => None
    case Some((_, walked)) =>
      LoopsBound(walked, clean, fuel);
      LoopsInRows(walked, clean, |walked|, fuel)
  }

  function CandidatesInRow(walked: seq<seq<MapItem>>, clean: seq<seq<MapItem>>, y: nat, n: nat): nat
  {
    if n == 0 then 0 else CandidatesInRow(walked, clean, y, n - 1) + Ind(Candidate(walked, clean, n - 1, y))
  }

  function CandidatesInRows(walked: seq<seq<MapItem>>, clean: seq<seq<MapItem>>, m: nat): nat
    requires m <= |walked|
  {
    if m == 0 then 0 else CandidatesInRows(walked, clean, m - 1) + CandidatesInRow(walked, clean, m - 1, |walked[0]|)
  }

  lemma {:induction false} LoopsInRowLe(walked: seq<seq<MapItem>>, clean: seq<seq<MapItem>>, y: nat, n: nat, fuel: nat)
    requires Rectangular(clean) && HasGuard(clean)
    ensures LoopsInRow(walked, clean, y, n, fuel).Some? ==>
            LoopsInRow(walked, clean, y, n, fuel).value <= CandidatesInRow(walked, clean, y, n)
    decreases n
  {
    if n > 0 {
      LoopsInRowLe(walked, clean, y, n - 1, fuel);
    }
  }

  lemma {:induction false} LoopsInRowsLe(walked: seq<seq<MapItem>>, clean: seq<seq<MapItem>>, m: nat, fuel: nat)
    requires Rectangular(clean) && HasGuard(clean) && m <= |walked|
    ensures LoopsInRows(walked, clean, m, fuel).Some? ==>
            LoopsInRows(walked, clean, m, fuel).value <= CandidatesInRows(walked, clean, m)
    decreases m
  {
    if m > 0 {
      LoopsInRowsLe(walked, clean, m - 1, fuel);
      LoopsInRowLe(walked, clean, m - 1, |walked[0]|, fuel);
    }
  }

  /** In each row, candidates are visited cells, and the start cell is a visited non-candidate. */
  lemma {:induction false} CandidatesInRowLe(walked: seq<seq<MapItem>>, clean: seq<seq<MapItem>>, y: nat, n: nat, gx: nat, gy: nat)
    requires y < |walked| && n <= |walked[y]|
    requires InBounds(clean, gx, gy) && clean[gy][gx] == Guard && InBounds(walked, gx, gy) && walked[gy][gx] == Visited
    ensures CandidatesInRow(walked, clean, y, n) + Ind(y == gy && gx < n) <= CountRow(walked[y], n, IsVisited)
    decreases n
  {
    if n > 0 {
      CandidatesInRowLe(walked, clean, y, n - 1, gx, gy);
    }
  }

  lemma {:induction false} CandidatesInRowsLe(walked: seq<seq<MapItem>>, clean: seq<seq<MapItem>>, m: nat, gx: nat, gy: nat)
    requires Rectangular(walked) && m <= |walked|
    requires InBounds(clean, gx, gy) && clean[gy][gx] == Guard && InBounds(walked, gx, gy) && walked[gy][gx] == Visited
    ensures CandidatesInRows(walked, clean, m) + Ind(gy < m) <= CountRows(walked, m, IsVisited)
    decreases m
  {
    if m > 0 {
      CandidatesInRowsLe(walked, clean, m - 1, gx, gy);
      CandidatesInRowLe(walked, clean, m - 1, |walked[0]|, gx, gy);
      if gy == m - 1 {
        CountRowPositive(walked[gy], |walked[gy]|, gx, IsVisited);
      }
    }
  }

  lemma LoopsBound(walked: seq<seq<MapItem>>, clean: seq<seq<MapItem>>, fuel: nat)
    requires Rectangular(clean) && HasGuard(clean)
    requires TravelMap(clean, fuel).Some? && TravelMap(clean, fuel).value.1 == walked
    ensures LoopsInRows(walked, clean, |walked|, fuel).Some? ==>
            LoopsInRows(walked, clean, |walked|, fuel).value + 1 <= CountVisited(walked)
  {
    var (gx, gy) := LocateGuard(clean).value;
    LoopsInRowsLe(walked, clean, |walked|, fuel);
    CandidatesInRowsLe(walked, clean, |walked|, gx, gy);
  }
}
