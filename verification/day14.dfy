/**
 Day 14: robots on a wrapping floor `lenX` wide and `lenY` tall. Each second
 every robot moves by its velocity and teleports across an edge it steps
 over. The safety factor multiplies the robot counts of the four quadrants,
 leaving out the middle column and the middle row.
 */
module Day14 {

  datatype Robot = Robot(posX: int, posY: int, velX: int, velY: int)

  /** One axis of one move: add the velocity, then undo at most one crossing of an edge. */
  function Wrap(pos: int, vel: int, len: int): (r: int)
    ensures 0 <= pos < len && -len <= vel <= len ==> 0 <= r < len && r == (pos + vel) % len
  {
    var p := pos + vel;
    WrapMod(p, len);
    if p < 0 then p + len else if p >= len then p - len else p
  }

  /** Within one floor length of the floor, one shift by the length is the remainder. */
  lemma WrapMod(p: int, len: int)
    ensures 0 < len && -len <= p < 2 * len ==>
      p % len == if p < 0 then p + len else if p >= len then p - len else p
  {
    if 0 < len && -len <= p < 2 * len {
      var q := if p < 0 then -1 else if p >= len then 1 else 0;
      assert p == q * len + (p - q * len);
    }
  }

  /**
   One second for one robot. The velocity is kept, and each coordinate moves
   by the velocity corrected by at most one floor length. A robot on the floor
   stays on it, at its position plus velocity modulo the floor size.
   */
  function MoveRobot(robot: Robot, lenX: int, lenY: int): (r: Robot)
    ensures r.velX == robot.velX && r.velY == robot.velY
    ensures var x := robot.posX + robot.velX; r.posX == x || r.posX == x + lenX || r.posX == x - lenX
    ensures var y := robot.posY + robot.velY; r.posY == y || r.posY == y + lenY || r.posY == y - lenY
    ensures OnFloor(robot, lenX, lenY) ==>
              OnFloor(r, lenX, lenY)
              && r.posX == (robot.posX + robot.velX) % lenX && r.posY == (robot.posY + robot.velY) % lenY
  {
    robot.(posX := Wrap(robot.posX, robot.velX, lenX), posY := Wrap(robot.posY, robot.velY, lenY))
  }

  /** On the floor, and never faster than one floor length a second: the wrap then lands back on the floor. */
  predicate OnFloor(robot: Robot, lenX: int, lenY: int)
  {
    0 <= robot.posX < lenX && 0 <= robot.posY < lenY && -lenX <= robot.velX <= lenX && -lenY <= robot.velY <= lenY
  }

  predicate AllOnFloor(robots: seq<Robot>, lenX: int, lenY: int)
  {
    forall i :: 0 <= i < |robots| ==> OnFloor(robots[i], lenX, lenY)
  }

  /** One second for every robot: same robots, same velocities, positions moved modulo the floor size. */
  function MoveRobots(robots: seq<Robot>, lenX: int, lenY: int): (r: seq<Robot>)
    ensures |r| == |robots|
    ensures forall i :: 0 <= i < |r| ==> r[i].velX == robots[i].velX && r[i].velY == robots[i].velY
    ensures AllOnFloor(robots, lenX, lenY) ==>
              AllOnFloor(r, lenX, lenY)
              && forall i :: 0 <= i < |r| ==>
                   r[i].posX == (robots[i].posX + robots[i].velX) % lenX
                   && r[i].posY == (robots[i].posY + robots[i].velY) % lenY
  {
    seq(|robots|, i requires 0 <= i < |robots| => MoveRobot(robots[i], lenX, lenY))
  }

  function MoveFor(robots: seq<Robot>, lenX: int, lenY: int, seconds: nat): (r: seq<Robot>)
    ensures |r| == |robots|
    ensures forall i :: 0 <= i < |r| ==> r[i].velX == robots[i].velX && r[i].velY == robots[i].velY
    ensures AllOnFloor(robots, lenX, lenY) ==> AllOnFloor(r, lenX, lenY)
    decreases seconds
  {
    if seconds == 0 then robots else MoveFor(MoveRobots(robots, lenX, lenY), lenX, lenY, seconds - 1)
  }

  /** Adding to a residue is adding to the number it is the residue of. */
  lemma ModAdd(a: int, v: int, len: int)
    requires len > 0
    ensures (a % len + v) % len == (a + v) % len
  {
    var q := a / len;
    assert a == q * len + a % len;
    assert a + v == (a % len + v) + q * len;
    ModShift(a % len + v, q, len);
  }

  lemma ModShift(x: int, q: int, len: int)
    requires len > 0
    ensures (x + q * len) % len == x % len
  {
    var r := x % len;
    assert x == (x / len) * len + r;
    assert x + q * len == (x / len + q) * len + r;
    ModUnique(x + q * len, x / len + q, r, len);
  }

  /** The quotient and remainder of Euclidean division are the only ones with `0 <= r < len`. */
  lemma ModUnique(x: int, q: int, r: int, len: int)
    requires len > 0 && 0 <= r < len && x == q * len + r
    ensures x % len == r
  {
    var q', r' := x / len, x % len;
    assert x == q' * len + r';
    assert (q - q') * len == r' - r;
    if q > q' {
      MulPositive(q - q', len);
    } else if q < q' {
      assert (q' - q) * len == r - r';
      MulPositive(q' - q, len);
    }
  }

  lemma MulNonnegative(a: int, b: int)
    requires a >= 0 && b >= 0
    ensures a * b >= 0
  {
  }

  lemma MulPositive(k: int, len: int)
    requires k >= 1 && len > 0
    ensures k * len >= len
  {
  }

  /** One second then `n - 1` more, on one axis. */
  lemma ClosedFormStep(pos: int, vel: int, len: int, n: nat)
    requires len > 0 && n >= 1
    ensures ((pos + vel) % len + (n - 1) * vel) % len == (pos + n * vel) % len
  {
    ModAdd(pos + vel, (n - 1) * vel, len);
    assert pos + vel + (n - 1) * vel == pos + n * vel;
  }

  /** Robot positions `robots` reach after `n` seconds on a `lenX` by `lenY` floor, written out. */
  ghost predicate ClosedForm(robots: seq<Robot>, moved: seq<Robot>, lenX: int, lenY: int, n: nat)
    requires lenX > 0 && lenY > 0 && |moved| == |robots|
  {
    forall i :: 0 <= i < |robots| ==>
      moved[i].posX == (robots[i].posX + n * robots[i].velX) % lenX
      && moved[i].posY == (robots[i].posY + n * robots[i].velY) % lenY
  }

  lemma ClosedFormZero(robots: seq<Robot>, lenX: int, lenY: int)
    requires lenX > 0 && lenY > 0 && AllOnFloor(robots, lenX, lenY)
    ensures ClosedForm(robots, robots, lenX, lenY, 0)
  {
    forall i | 0 <= i < |robots|
      ensures robots[i].posX % lenX == robots[i].posX && robots[i].posY % lenY == robots[i].posY
    {
      ModUnique(robots[i].posX, 0, robots[i].posX, lenX);
      ModUnique(robots[i].posY, 0, robots[i].posY, lenY);
    }
  }

  /** The closed form after one second and then `n - 1` more is the closed form after `n`. */
  lemma ClosedFormSucc(robots: seq<Robot>, next: seq<Robot>, moved: seq<Robot>, lenX: int, lenY: int, n: nat)
    requires lenX > 0 && lenY > 0 && n >= 1 && AllOnFloor(robots, lenX, lenY)
    requires next == MoveRobots(robots, lenX, lenY) && |moved| == |robots|
    requires ClosedForm(next, moved, lenX, lenY, n - 1)
    ensures ClosedForm(robots, moved, lenX, lenY, n)
  {
    forall i | 0 <= i < |robots|
      ensures moved[i].posX == (robots[i].posX + n * robots[i].velX) % lenX
      ensures moved[i].posY == (robots[i].posY + n * robots[i].velY) % lenY
    {
      var r := robots[i];
      ClosedFormStep(r.posX, r.velX, lenX, n);
      ClosedFormStep(r.posY, r.velY, lenY, n);
    }
  }

  /** After `n` seconds a robot stands at its start plus `n` times its velocity, modulo the floor size. */
  lemma {:induction false} MoveForClosedForm(robots: seq<Robot>, lenX: int, lenY: int, n: nat)
    requires lenX > 0 && lenY > 0 && AllOnFloor(robots, lenX, lenY)
    ensures forall i :: 0 <= i < |robots| ==>
              MoveFor(robots, lenX, lenY, n)[i].posX == (robots[i].posX + n * robots[i].velX) % lenX
              && MoveFor(robots, lenX, lenY, n)[i].posY == (robots[i].posY + n * robots[i].velY) % lenY
    decreases n
  {
    if n == 0 {
      ClosedFormZero(robots, lenX, lenY);
    } else {
      var next := MoveRobots(robots, lenX, lenY);
      MoveForClosedForm(next, lenX, lenY, n - 1);
      var moved := MoveFor(next, lenX, lenY, n - 1);
      assert ClosedForm(next, moved, lenX, lenY, n - 1);
      ClosedFormSucc(robots, next, moved, lenX, lenY, n);
      assert MoveFor(robots, lenX, lenY, n) == moved;
    }
  }

  // ---------------------------------------------------------------- counting

  predicate InRect(robot: Robot, startX: int, endX: int, startY: int, endY: int)
  {
    startX <= robot.posX <= endX && startY <= robot.posY <= endY
  }

  /** Robots inside the closed rectangle: none counted exactly when none are inside, all exactly when all are. */
  function RobotsInArea(robots: seq<Robot>, startX: int, endX: int, startY: int, endY: int): (n: nat)
    ensures n <= |robots|
    ensures n == 0 <==> forall i :: 0 <= i < |robots| ==> !InRect(robots[i], startX, endX, startY, endY)
    ensures n == |robots| <==> forall i :: 0 <= i < |robots| ==> InRect(robots[i], startX, endX, startY, endY)
  {
    if |robots| == 0 then 0
    else
      var rest := RobotsInArea(robots[1..], startX, endX, startY, endY);
      assert forall i :: 1 <= i < |robots| ==> robots[i] == robots[1..][i - 1];
      (if InRect(robots[0], startX, endX, startY, endY) then 1 else 0) + rest
  }

  /** Robots standing in the middle column or the middle row. */
  function OnMiddle(robots: seq<Robot>, lenX: int, lenY: int): (n: nat)
    ensures n <= |robots|
  {
    if |robots| == 0 then 0
    else (if robots[0].posX == lenX / 2 || robots[0].posY == lenY / 2 then 1 else 0) + OnMiddle(robots[1..], lenX, lenY)
  }

  function TopLeft(robots: seq<Robot>, lenX: int, lenY: int): nat
  {
    RobotsInArea(robots, 0, lenX / 2 - 1, 0, lenY / 2 - 1)
  }

  function TopRight(robots: seq<Robot>, lenX: int, lenY: int): nat
  {
    RobotsInArea(robots, lenX / 2 + 1, lenX - 1, 0, lenY / 2 - 1)
  }

  function BottomLeft(robots: seq<Robot>, lenX: int, lenY: int): nat
  {
    RobotsInArea(robots, 0, lenX / 2 - 1, lenY / 2 + 1, lenY - 1)
  }

  function BottomRight(robots: seq<Robot>, lenX: int, lenY: int): nat
  {
    RobotsInArea(robots, lenX / 2 + 1, lenX - 1, lenY / 2 + 1, lenY - 1)
  }

  /**
   The four quadrants and the middle lines split the floor: every robot on
   it is counted exactly once among them.
   */
  lemma {:induction false} QuadrantsPartition(robots: seq<Robot>, lenX: int, lenY: int)
    requires lenX > 0 && lenY > 0
    requires forall i :: 0 <= i < |robots| ==> 0 <= robots[i].posX < lenX && 0 <= robots[i].posY < lenY
    ensures TopLeft(robots, lenX, lenY) + TopRight(robots, lenX, lenY)
            + BottomLeft(robots, lenX, lenY) + BottomRight(robots, lenX, lenY)
            + OnMiddle(robots, lenX, lenY) == |robots|
    decreases |robots|
  {
    if |robots| > 0 {
      QuadrantsPartition(robots[1..], lenX, lenY);
    }
  }

  lemma ProductZero(a: nat, b: nat, c: nat, d: nat)
    ensures a * b * c * d >= 0
    ensures a * b * c * d == 0 <==> a == 0 || b == 0 || c == 0 || d == 0
  {
    MulNonnegative(a, b);
    MulNonnegative(a * b, c);
    MulNonnegative(a * b * c, d);
    if a > 0 && b > 0 && c > 0 && d > 0 {
      MulPositive(a, b);
      MulPositive(a * b, c);
      MulPositive(a * b * c, d);
    }
  }

  /**
   The safety factor after `seconds` seconds: zero exactly when some quadrant
   is empty. Robots that start off the floor, or outrun the single wrap, are
   simply counted in no quadrant; when every robot starts on the floor, a
   nonzero factor also leaves at least four robots off the middle lines.
   */
  function SafetyFactor(robots: seq<Robot>, lenX: int, lenY: int, seconds: nat): (factor: nat)
    requires lenX > 0 && lenY > 0
    ensures var moved := MoveFor(robots, lenX, lenY, seconds);
            factor == 0 <==> TopLeft(moved, lenX, lenY) == 0 || TopRight(moved, lenX, lenY) == 0
                             || BottomLeft(moved, lenX, lenY) == 0 || BottomRight(moved, lenX, lenY) == 0
    ensures AllOnFloor(robots, lenX, lenY) && factor > 0 ==>
              OnMiddle(MoveFor(robots, lenX, lenY, seconds), lenX, lenY) + 4 <= |robots|
  {
    var moved := MoveFor(robots, lenX, lenY, seconds);
    var tl, tr, bl, br := TopLeft(moved, lenX, lenY), TopRight(moved, lenX, lenY),
                          BottomLeft(moved, lenX, lenY), BottomRight(moved, lenX, lenY);
    ProductZero(tl, tr, bl, br);
    if AllOnFloor(robots, lenX, lenY) then
      QuadrantsPartition(moved, lenX, lenY);
      tl * tr * bl * br
    else
      tl * tr * bl * br
  }

  const Example: seq<Robot> := [
    Robot(0, 4, 3, -3), Robot(6, 3, -1, -3), Robot(10, 3, -1, 2), Robot(2, 0, 2, -1),
    Robot(0, 0, 1, 3), Robot(3, 0, -2, -2), Robot(7, 6, -1, -3), Robot(3, 0, -1, -2),
    Robot(9, 3, 2, 3), Robot(7, 3, -1, 2), Robot(2, 4, 2, -3), Robot(9, 5, -3, -3)
  ]

  /** Where the example robots stand after 100 seconds on an 11 by 7 floor. */
  const ExampleAfter100: seq<Robot> := [
    Robot(3, 5, 3, -3), Robot(5, 4, -1, -3), Robot(9, 0, -1, 2), Robot(4, 5, 2, -1),
    Robot(1, 6, 1, 3), Robot(1, 3, -2, -2), Robot(6, 0, -1, -3), Robot(2, 3, -1, -2),
    Robot(0, 2, 2, 3), Robot(6, 0, -1, 2), Robot(4, 5, 2, -3), Robot(6, 6, -3, -3)
  ]

  lemma ExampleOnFloor()
    ensures AllOnFloor(Example, 11, 7)
  {
  }

  /**
   `after` is where `robots` stand after `n` seconds, witnessed by the
   quotients `qs`: each final position is the start plus `n` velocities minus
   a whole number of floor lengths, and lies on the floor.
   */
  predicate Certified(robots: seq<Robot>, after: seq<Robot>, qs: seq<(int, int)>, n: nat, lenX: int, lenY: int)
  {
    |robots| == |after| == |qs| && CertifiedFrom(robots, after, qs, n, lenX, lenY, 0)
  }

  predicate CertifiedFrom(robots: seq<Robot>, after: seq<Robot>, qs: seq<(int, int)>, n: nat, lenX: int, lenY: int, k: nat)
    requires |robots| == |after| == |qs|
    decreases |robots| - k
  {
    k < |robots| ==>
      var r, a, q := robots[k], after[k], qs[k];
      a.velX == r.velX && a.velY == r.velY
      && r.posX + n * r.velX == q.0 * lenX + a.posX && 0 <= a.posX < lenX
      && r.posY + n * r.velY == q.1 * lenY + a.posY && 0 <= a.posY < lenY
      && CertifiedFrom(robots, after, qs, n, lenX, lenY, k + 1)
  }

  lemma {:induction false} CertifiedAt(robots: seq<Robot>, after: seq<Robot>, qs: seq<(int, int)>, n: nat, lenX: int, lenY: int,
                                       j: nat, k: nat)
    requires |robots| == |after| == |qs| && CertifiedFrom(robots, after, qs, n, lenX, lenY, j) && j <= k < |robots|
    ensures after[k].velX == robots[k].velX && after[k].velY == robots[k].velY
    ensures robots[k].posX + n * robots[k].velX == qs[k].0 * lenX + after[k].posX && 0 <= after[k].posX < lenX
    ensures robots[k].posY + n * robots[k].velY == qs[k].1 * lenY + after[k].posY && 0 <= after[k].posY < lenY
    decreases k - j
  {
    if j < k {
      CertifiedAt(robots, after, qs, n, lenX, lenY, j + 1, k);
    }
  }

  /** A certified list of final positions is what the simulation produces. */
  lemma CertifiedMoves(robots: seq<Robot>, after: seq<Robot>, qs: seq<(int, int)>, n: nat, lenX: int, lenY: int)
    requires lenX > 0 && lenY > 0 && AllOnFloor(robots, lenX, lenY)
    requires Certified(robots, after, qs, n, lenX, lenY)
    ensures MoveFor(robots, lenX, lenY, n) == after
  {
    MoveForClosedForm(robots, lenX, lenY, n);
    var moved := MoveFor(robots, lenX, lenY, n);
    forall k | 0 <= k < |robots| ensures moved[k] == after[k] {
      CertifiedAt(robots, after, qs, n, lenX, lenY, 0, k);
      ModUnique(robots[k].posX + n * robots[k].velX, qs[k].0, after[k].posX, lenX);
      ModUnique(robots[k].posY + n * robots[k].velY, qs[k].1, after[k].posY, lenY);
    }
  }

  /** How many floor lengths each example robot wraps around in 100 seconds, per axis. */
  const ExampleQuotients: seq<(int, int)> := [(27, -43), (-9, -43), (-9, 29), (18, -15), (9, 42), (-18, -29), (-9, -42), (-9, -29), (19, 43), (-9, 29), (18, -43), (-27, -43)]

  lemma ExampleCertified()
    ensures Certified(Example, ExampleAfter100, ExampleQuotients, 100, 11, 7)
  {
  }

  lemma ExampleMoves(seconds: nat)
    requires seconds == 100
    ensures MoveFor(Example, 11, 7, seconds) == ExampleAfter100
  {
    ExampleCertified();
    ExampleOnFloor();
    CertifiedMoves(Example, ExampleAfter100, ExampleQuotients, seconds, 11, 7);
  }

  lemma ExampleQuadrants()
    ensures TopLeft(ExampleAfter100, 11, 7) == 1 && TopRight(ExampleAfter100, 11, 7) == 3
    ensures BottomLeft(ExampleAfter100, 11, 7) == 4 && BottomRight(ExampleAfter100, 11, 7) == 1
  {
    ExampleTopLeft();
    ExampleTopRight();
    ExampleBottomLeft();
    ExampleBottomRight();
  }

  lemma ExampleTopLeft()
    ensures TopLeft(ExampleAfter100, 11, 7) == 1
  {
  }

  lemma ExampleTopRight()
    ensures TopRight(ExampleAfter100, 11, 7) == 3
  {
  }

  lemma ExampleBottomLeft()
    ensures BottomLeft(ExampleAfter100, 11, 7) == 4
  {
  }

  lemma ExampleBottomRight()
    ensures BottomRight(ExampleAfter100, 11, 7) == 1
  {
  }

  /** The worked example: quadrants of 1, 3, 4 and 1 robots give a safety factor of 12. */
  lemma ExampleSafety(seconds: nat)
    requires seconds == 100
    ensures AllOnFloor(Example, 11, 7)
    ensures SafetyFactor(Example, 11, 7, seconds) == 12
  {
    ExampleOnFloor();
    ExampleMoves(seconds);
    ExampleQuadrants();
  }

  // ---------------------------------------------------------------- plot

  function RowSum(row: seq<nat>): nat
  {
    if |row| == 0 then 0 else row[0] + RowSum(row[1..])
  }

  function MapSum(counts: seq<seq<nat>>): nat
  {
    if |counts| == 0 then 0 else RowSum(counts[0]) + MapSum(counts[1..])
  }

  lemma {:induction false} RowSumIncrement(row: seq<nat>, x: nat)
    requires x < |row|
    ensures RowSum(row[x := row[x] + 1]) == RowSum(row) + 1
    decreases |row|
  {
    if x > 0 {
      assert row[x := row[x] + 1][1..] == row[1..][x - 1 := row[1..][x - 1] + 1];
      RowSumIncrement(row[1..], x - 1);
    }
  }

  lemma {:induction false} MapSumIncrement(counts: seq<seq<nat>>, x: nat, y: nat)
    requires y < |counts| && x < |counts[y]|
    ensures MapSum(counts[y := counts[y][x := counts[y][x] + 1]]) == MapSum(counts) + 1
    decreases |counts|
  {
    if y == 0 {
      RowSumIncrement(counts[0], x);
      assert counts[y := counts[y][x := counts[y][x] + 1]][1..] == counts[1..];
    } else {
      assert counts[y := counts[y][x := counts[y][x] + 1]][1..] == counts[1..][y - 1 := counts[1..][y - 1][x := counts[1..][y - 1][x] + 1]];
      MapSumIncrement(counts[1..], x, y - 1);
    }
  }

  function ZeroRow(len: nat): (row: seq<nat>)
    ensures |row| == len && RowSum(row) == 0
    ensures forall x :: 0 <= x < len ==> row[x] == 0
  {
    if len == 0 then [] else [0] + ZeroRow(len - 1)
  }

  function ZeroMap(lenX: nat, lenY: nat): (counts: seq<seq<nat>>)
    ensures |counts| == lenY && MapSum(counts) == 0
    ensures forall y :: 0 <= y < lenY ==> |counts[y]| == lenX && forall x :: 0 <= x < lenX ==> counts[y][x] == 0
  {
    if lenY == 0 then [] else [ZeroRow(lenX)] + ZeroMap(lenX, lenY - 1)
  }

  function RobotsAt(robots: seq<Robot>, x: int, y: int): nat
  {
    if |robots| == 0 then 0
    else RobotsAt(robots[..|robots| - 1], x, y) + (if robots[|robots| - 1].posX == x && robots[|robots| - 1].posY == y then 1 else 0)
  }

  /** The counts of robot counts: each cell holds the number of robots standing on it, and the cells add up to all robots. */
  function PlotMap(robots: seq<Robot>, lenX: nat, lenY: nat): (counts: seq<seq<nat>>)
    requires forall i :: 0 <= i < |robots| ==> 0 <= robots[i].posX < lenX && 0 <= robots[i].posY < lenY
    ensures |counts| == lenY && forall y :: 0 <= y < lenY ==> |counts[y]| == lenX
    ensures forall y, x :: 0 <= y < lenY && 0 <= x < lenX ==> counts[y][x] == RobotsAt(robots, x, y)
    ensures MapSum(counts) == |robots|
    decreases |robots|
  {
    if |robots| == 0 then ZeroMap(lenX, lenY)
    else
      var counts := PlotMap(robots[..|robots| - 1], lenX, lenY);
      var r := robots[|robots| - 1];
      MapSumIncrement(counts, r.posX, r.posY);
      counts[r.posY := counts[r.posY][r.posX := counts[r.posY][r.posX] + 1]]
  }
}
