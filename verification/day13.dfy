/**
 Day 13: claw machines. Button A moves the claw by `(aX, aY)` and costs 3
 tokens, button B by `(bX, bY)` and costs 1; a prize at `(pX, pY)` is won by
 pressing A `a` times and B `b` times with `a*(aX, aY) + b*(bX, bY) = (pX, pY)`.
 The solver uses Cramer's rule with truncating integer division and keeps a
 solution only when it checks out exactly.
 */
module Day13 {
  import opened Common

  datatype Machine = Machine(aX: int, aY: int, bX: int, bY: int, pX: int, pY: int)

  /** The prize offset of part two. */
  const LocationOffset: int := 10000000000000

  /** Loading with an offset moves the prize; the buttons are as written. */
  function WithOffset(m: Machine, offset: int): (r: Machine)
    ensures r.aX == m.aX && r.aY == m.aY && r.bX == m.bX && r.bY == m.bY
    ensures r.pX - m.pX == offset && r.pY - m.pY == offset
  {
    m.(pX := m.pX + offset, pY := m.pY + offset)
  }

  function Det(m: Machine): int
  {
    m.aX * m.bY - m.aY * m.bX
  }

  /** The two divisions the solver performs are defined. */
  predicate Solvable(m: Machine)
  {
    m.aX != 0 && Det(m) != 0
  }

  /** Pressing A `a` times and B `b` times puts the claw exactly on the prize. */
  predicate Reaches(m: Machine, a: int, b: int)
  {
    m.aX * a + m.bX * b == m.pX && m.aY * a + m.bY * b == m.pY
  }

  function Abs(x: int): nat
  {
    if x < 0 then -x else x
  }

  /**
   Integer division rounding toward zero, as `/` on `i64`: the remainder is
   smaller than the divisor in magnitude and is zero or has the dividend's sign.
   */
  function TruncDiv(a: int, b: int): (q: int)
    requires b != 0
    ensures Abs(a - q * b) < Abs(b)
    ensures a - q * b == 0 || ((a - q * b < 0) <==> (a < 0))
  {
    var n := Abs(a) / Abs(b);
    var q := if (a < 0) != (b < 0) then -n else n;
    TruncDivRemainder(a, b, n, q);
    q
  }

  lemma TruncDivRemainder(a: int, b: int, n: int, q: int)
    requires b != 0 && n == Abs(a) / Abs(b) && q == (if (a < 0) != (b < 0) then -n else n)
    ensures a - q * b == (if a < 0 then -(Abs(a) % Abs(b)) else Abs(a) % Abs(b))
  {
    var big, small := Abs(a), Abs(b);
    assert big == n * small + big % small;
    if b < 0 {
      Negate(q, small);
    }
    if (a < 0) != (b < 0) {
      Negate(n, small);
    }
  }

  lemma Negate(x: int, y: int)
    ensures x * -y == -(x * y) && -x * y == -(x * y)
  {
  }

  /** A multiple of `y` by a factor of at least one is at least `y`. */
  lemma MulAtLeast(x: nat, y: nat)
    requires x >= 1
    ensures x * y >= y
  {
  }

  /** Dividing an exact multiple gives the factor back, whatever the signs. */
  lemma TruncDivExact(k: int, b: int)
    requires b != 0
    ensures TruncDiv(k * b, b) == k
  {
    TruncDivUnique(k * b, b, k);
  }

  /** The remainder conditions pin the quotient down. */
  lemma TruncDivUnique(a: int, b: int, q: int)
    requires b != 0
    requires Abs(a - q * b) < Abs(b) && (a - q * b == 0 || ((a - q * b < 0) <==> (a < 0)))
    ensures TruncDiv(a, b) == q
  {
    var q' := TruncDiv(a, b);
    RemaindersClose(a, a - q * b, a - q' * b, Abs(b));
    if q != q' {
      QuotientsApart(a, b, q, q');
    }
  }

  /** Two remainders of the dividend's sign, both below `m` in magnitude, differ by less than `m`. */
  lemma RemaindersClose(a: int, r: int, r': int, m: nat)
    requires Abs(r) < m && (r == 0 || ((r < 0) <==> (a < 0)))
    requires Abs(r') < m && (r' == 0 || ((r' < 0) <==> (a < 0)))
    ensures Abs(r' - r) < m
  {
  }

  /** Distinct quotients leave remainders at least `|b|` apart. */
  lemma QuotientsApart(a: int, b: int, q: int, q': int)
    requires b != 0 && q != q'
    ensures Abs((a - q' * b) - (a - q * b)) >= Abs(b)
  {
    assert (a - q' * b) - (a - q * b) == (q - q') * b;
    MulAtLeast(Abs(q - q'), Abs(b));
    AbsMul(q - q', b);
  }

  lemma AbsMul(x: int, y: int)
    ensures Abs(x * y) == Abs(x) * Abs(y)
  {
    if x < 0 && y < 0 {
      assert x * y == (-x) * (-y);
    } else if x < 0 {
      assert x * y == -((-x) * y);
    } else if y < 0 {
      assert x * y == -(x * (-y));
    }
  }

  /**
   The solver as the source writes it: B's presses by Cramer's rule, then A's
   from the first equation, each with truncating division, kept only when
   both equations hold exactly.
   */
  function Solve(m: Machine): (r: Option<(int, int)>)
    requires Solvable(m)
    ensures r.Some? ==> Reaches(m, r.value.0, r.value.1)
  {
    var b := TruncDiv(m.aX * m.pY - m.aY * m.pX, Det(m));
    var a := TruncDiv(m.pX - m.bX * b, m.aX);
    if m.aX * a + m.bX * b == m.pX && m.aY * a + m.bY * b == m.pY then Some((a, b)) else None
  }

  /** Cramer's numerator for B is `b` times the determinant whenever `(a, b)` reaches the prize. */
  lemma CramerB(m: Machine, a: int, b: int)
    requires Reaches(m, a, b)
    ensures m.aX * m.pY - m.aY * m.pX == b * Det(m)
  {
    calc {
      m.aX * m.pY - m.aY * m.pX;
      m.aX * (m.aY * a + m.bY * b) - m.aY * (m.aX * a + m.bX * b);
      m.aX * m.aY * a + m.aX * m.bY * b - m.aY * m.aX * a - m.aY * m.bX * b;
      b * (m.aX * m.bY - m.aY * m.bX);
    }
  }

  /** Every way of reaching the prize is the one the solver returns. */
  lemma SolveFindsSolution(m: Machine, a: int, b: int)
    requires Solvable(m) && Reaches(m, a, b)
    ensures Solve(m) == Some((a, b))
  {
    CramerB(m, a, b);
    TruncDivExact(b, Det(m));
    assert m.pX - m.bX * b == a * m.aX;
    TruncDivExact(a, m.aX);
  }

  /** With a nonzero determinant there is at most one way to reach the prize. */
  lemma UniquePresses(m: Machine, a: int, b: int, a': int, b': int)
    requires Solvable(m) && Reaches(m, a, b) && Reaches(m, a', b')
    ensures a == a' && b == b'
  {
    SolveFindsSolution(m, a, b);
    SolveFindsSolution(m, a', b');
  }

  /** The solver fails exactly when no combination of presses reaches the prize. */
  lemma SolveNoneIffUnreachable(m: Machine)
    requires Solvable(m)
    ensures Solve(m).None? <==> forall a, b :: !Reaches(m, a, b)
  {
    if Solve(m).None? {
      forall a, b ensures !Reaches(m, a, b) {
        if Reaches(m, a, b) {
          SolveFindsSolution(m, a, b);
        }
      }
    }
  }

  /** The solver as written accepts a negative number of presses. */
  lemma NegativePressesCounted()
    ensures Solvable(Machine(1, 1, 2, 1, 1, 2))
    ensures Solve(Machine(1, 1, 2, 1, 1, 2)) == Some((3, -1))
  {
    SolveFindsSolution(Machine(1, 1, 2, 1, 1, 2), 3, -1);
  }

  /** Corrected solver: a prize is won only with a nonnegative number of presses of each button. */
  function Presses(m: Machine): (r: Option<(nat, nat)>)
    requires Solvable(m)
    ensures r.Some? ==> Reaches(m, r.value.0, r.value.1)
  {
    match Solve(m)
    case Some((a, b)) => if a >= 0 && b >= 0 then Some((a, b)) else None
    case None => None
  }

  /** The corrected solver returns `(a, b)` exactly when those presses are possible and reach the prize. */
  lemma PressesExact(m: Machine, a: int, b: int)
    requires Solvable(m)
    ensures Presses(m) == Some((a, b)) <==> a >= 0 && b >= 0 && Reaches(m, a, b)
  {
    if a >= 0 && b >= 0 && Reaches(m, a, b) {
      SolveFindsSolution(m, a, b);
    }
  }

  /** Tokens spent on one machine: 3 per A press and 1 per B press, nothing when it cannot be won. */
  function Spend(m: Machine): (tokens: nat)
    requires Solvable(m)
    ensures tokens == 0 <==> Presses(m).None? || Presses(m) == Some((0, 0))
  {
    match Presses(m)
    case Some((a, b)) => 3 * a + b
    case None => 0
  }

  /** The spend on a machine is the cost of any winning presses: there is no cheaper way to the same prize. */
  lemma SpendIsCostOfWin(m: Machine, a: nat, b: nat)
    requires Solvable(m) && Reaches(m, a, b)
    ensures Spend(m) == 3 * a + b
  {
    PressesExact(m, a, b);
  }

  /**
   As written: every solution the solver accepts is paid for, even with
   negative presses. Any integer presses reaching the prize set the price, an
   unreachable prize costs nothing, and the price differs from the corrected
   `Spend` exactly for a costly solution with a negative press.
   */
  function SpendAsWritten(m: Machine): (tokens: int)
    requires Solvable(m)
    ensures forall a, b :: Reaches(m, a, b) ==> tokens == 3 * a + b
    ensures (forall a, b :: !Reaches(m, a, b)) ==> tokens == 0
    ensures tokens != Spend(m) <==> Solve(m).Some? && (Solve(m).value.0 < 0 || Solve(m).value.1 < 0)
                                    && 3 * Solve(m).value.0 + Solve(m).value.1 != 0
  {
    forall a, b | Reaches(m, a, b)
      ensures Solve(m) == Some((a, b))
    {
      SolveFindsSolution(m, a, b);
    }
    match Solve(m)
    case Some((a, b)) => 3 * a + b
    case None => 0
  }

  predicate AllSolvable(machines: seq<Machine>, offset: int)
  {
    forall k :: 0 <= k < |machines| ==> Solvable(WithOffset(machines[k], offset))
  }

  /** The corrected spend of each machine, in order. */
  function Spends(machines: seq<Machine>, offset: int): (r: seq<int>)
    requires AllSolvable(machines, offset)
    ensures |r| == |machines| && forall k :: 0 <= k < |r| ==> r[k] == Spend(WithOffset(machines[k], offset))
  {
    seq(|machines|, k requires 0 <= k < |machines| => Spend(WithOffset(machines[k], offset)))
  }

  /**
   The source's spend of each machine, in order. Entry by entry it agrees with
   the corrected spends wherever the accepted solution has no negative press.
   */
  function SpendsAsWritten(machines: seq<Machine>, offset: int): (r: seq<int>)
    requires AllSolvable(machines, offset)
    ensures |r| == |machines| && forall k :: 0 <= k < |r| ==> r[k] == SpendAsWritten(WithOffset(machines[k], offset))
    ensures forall k :: 0 <= k < |r| && Nonnegative(Solve(WithOffset(machines[k], offset))) ==> r[k] == Spends(machines, offset)[k]
  {
    seq(|machines|, k requires 0 <= k < |machines| => SpendAsWritten(WithOffset(machines[k], offset)))
  }

  lemma AllSolvableTail(machines: seq<Machine>, offset: int)
    requires |machines| > 0 && AllSolvable(machines, offset)
    ensures AllSolvable(machines[1..], offset)
    ensures Spends(machines, offset)[1..] == Spends(machines[1..], offset)
    ensures SpendsAsWritten(machines, offset)[1..] == SpendsAsWritten(machines[1..], offset)
  {
    assert forall k :: 0 <= k < |machines[1..]| ==> machines[1..][k] == machines[k + 1];
  }

  /**
   Total tokens over all machines, each with the prize moved by `offset`,
   counting a machine only when it can be won with nonnegative presses.
   */
  function MinSpendForMostPrizes(machines: seq<Machine>, offset: int): (tokens: nat)
    requires AllSolvable(machines, offset)
    ensures tokens == Sum(Spends(machines, offset))
    ensures forall k :: 0 <= k < |machines| ==> tokens >= Spend(WithOffset(machines[k], offset))
    ensures tokens == 0 <==> forall k :: 0 <= k < |machines| ==> Spend(WithOffset(machines[k], offset)) == 0
    ensures |machines| == 0 ==> tokens == 0
    ensures |machines| > 0 ==> tokens >= Spend(WithOffset(machines[0], offset))
  {
    if |machines| == 0 then 0
    else
      AllSolvableTail(machines, offset);
      var rest := MinSpendForMostPrizes(machines[1..], offset);
      assert forall k :: 1 <= k < |machines| ==> machines[k] == machines[1..][k - 1];
      Spend(WithOffset(machines[0], offset)) + rest
  }

  /** The source's total: every accepted solution is paid for, whatever the signs of its presses. */
  function MinSpendAsWritten(machines: seq<Machine>, offset: int): (tokens: int)
    requires AllSolvable(machines, offset)
    ensures tokens == Sum(SpendsAsWritten(machines, offset))
  {
    if |machines| == 0 then 0
    else
      AllSolvableTail(machines, offset);
      SpendAsWritten(WithOffset(machines[0], offset)) + MinSpendAsWritten(machines[1..], offset)
  }

  /** When every accepted solution has nonnegative presses, the corrected total is the source's total. */
  lemma {:induction false} SpendAgrees(machines: seq<Machine>, offset: int)
    requires AllSolvable(machines, offset)
    requires forall k :: 0 <= k < |machines| ==> Nonnegative(Solve(WithOffset(machines[k], offset)))
    ensures MinSpendForMostPrizes(machines, offset) == MinSpendAsWritten(machines, offset)
    decreases |machines|
  {
    if |machines| > 0 {
      assert AllSolvable(machines[1..], offset) by {
        forall k | 0 <= k < |machines[1..]| ensures machines[1..][k] == machines[k + 1] { }
      }
      assert forall k :: 0 <= k < |machines[1..]| ==> machines[1..][k] == machines[k + 1];
      SpendAgrees(machines[1..], offset);
    }
  }

  predicate Nonnegative(r: Option<(int, int)>)
  {
    r.Some? ==> r.value.0 >= 0 && r.value.1 >= 0
  }

  /** The machine that shows the difference: the source pays 8 tokens for it, the corrected model none. */
  lemma NegativePressesPaid()
    ensures MinSpendAsWritten([Machine(1, 1, 2, 1, 1, 2)], 0) == 8
    ensures MinSpendForMostPrizes([Machine(1, 1, 2, 1, 1, 2)], 0) == 0
  {
    var m := Machine(1, 1, 2, 1, 1, 2);
    NegativePressesCounted();
    assert WithOffset(m, 0) == m;
    assert SpendAsWritten(m) == 8;
    assert Presses(m) == None;
    assert [m][1..] == [];
  }

  const Example: seq<Machine> := [
    Machine(94, 34, 22, 67, 8400, 5400),
    Machine(26, 66, 67, 21, 12748, 12176),
    Machine(17, 86, 84, 37, 7870, 6450),
    Machine(69, 23, 27, 71, 18641, 10279)
  ]

  /** The second example machine cannot be won: the checked quotients miss the prize. */
  lemma ExampleSecondLost()
    ensures Solvable(Example[1]) && Solve(Example[1]) == None
  {
    TruncDivUnique(-524792, -3876, 135);
    TruncDivUnique(3703, 26, 142);
  }

  /** The fourth example machine cannot be won either. */
  lemma ExampleFourthLost()
    ensures Solvable(Example[3]) && Solve(Example[3]) == None
  {
    TruncDivUnique(280508, 4278, 65);
    TruncDivUnique(16886, 69, 244);
  }

  lemma ExampleSpends()
    ensures Solvable(Example[0]) && Spend(Example[0]) == 280
    ensures Solvable(Example[1]) && Spend(Example[1]) == 0
    ensures Solvable(Example[2]) && Spend(Example[2]) == 200
    ensures Solvable(Example[3]) && Spend(Example[3]) == 0
  {
    ExampleSecondLost();
    ExampleFourthLost();
    SpendIsCostOfWin(Example[0], 80, 40);
    SpendIsCostOfWin(Example[2], 38, 86);
  }

  /** A four-machine total is the four spends added up. */
  lemma TotalOfFour(m0: Machine, m1: Machine, m2: Machine, m3: Machine, offset: int)
    requires Solvable(WithOffset(m0, offset)) && Solvable(WithOffset(m1, offset))
    requires Solvable(WithOffset(m2, offset)) && Solvable(WithOffset(m3, offset))
    ensures AllSolvable([m0, m1, m2, m3], offset)
    ensures MinSpendForMostPrizes([m0, m1, m2, m3], offset)
            == Spend(WithOffset(m0, offset)) + Spend(WithOffset(m1, offset))
               + Spend(WithOffset(m2, offset)) + Spend(WithOffset(m3, offset))
  {
    assert [m3][1..] == [];
    assert MinSpendForMostPrizes([m3], offset) == Spend(WithOffset(m3, offset));
    assert [m2, m3][1..] == [m3];
    assert MinSpendForMostPrizes([m2, m3], offset) == Spend(WithOffset(m2, offset)) + Spend(WithOffset(m3, offset));
    assert [m1, m2, m3][1..] == [m2, m3];
    assert [m0, m1, m2, m3][1..] == [m1, m2, m3];
  }

  /** The worked example: 480 tokens win the first and third prizes. */
  lemma ExampleOne()
    ensures AllSolvable(Example, 0)
    ensures MinSpendForMostPrizes(Example, 0) == 480
  {
    var m0, m1, m2, m3 := Example[0], Example[1], Example[2], Example[3];
    assert Example == [m0, m1, m2, m3];
    assert Solvable(WithOffset(m0, 0)) && Solvable(WithOffset(m1, 0)) && Solvable(WithOffset(m2, 0))
        && Solvable(WithOffset(m3, 0))
        && Spend(WithOffset(m0, 0)) + Spend(WithOffset(m1, 0)) + Spend(WithOffset(m2, 0)) + Spend(WithOffset(m3, 0)) == 480
    by {
      ExampleSpends();
      assert WithOffset(m0, 0) == m0 && WithOffset(m1, 0) == m1 && WithOffset(m2, 0) == m2 && WithOffset(m3, 0) == m3;
    }
    TotalOfFour(m0, m1, m2, m3, 0);
  }

  lemma FarFirstLost()
    ensures Solvable(WithOffset(Example[0], LocationOffset)) && Spend(WithOffset(Example[0], LocationOffset)) == 0
  {
    TruncDivUnique(600000000222000, 5550, 108108108148);
    TruncDivUnique(7621621629144, 94, 81081081161);
  }

  lemma FarSecondWon()
    ensures Solvable(WithOffset(Example[1], LocationOffset))
    ensures Spend(WithOffset(Example[1], LocationOffset)) == 459236326669
  {
    SpendIsCostOfWin(WithOffset(Example[1], LocationOffset), 118679050709, 103199174542);
  }

  lemma FarThirdLost()
    ensures Solvable(WithOffset(Example[2], LocationOffset)) && Spend(WithOffset(Example[2], LocationOffset)) == 0
  {
    TruncDivUnique(-690000000567170, -6595, 104624715779);
    TruncDivUnique(1211523882434, 17, 71266110731);
  }

  lemma FarFourthWon()
    ensures Solvable(WithOffset(Example[3], LocationOffset))
    ensures Spend(WithOffset(Example[3], LocationOffset)) == 416082282239
  {
    SpendIsCostOfWin(WithOffset(Example[3], LocationOffset), 102851800151, 107526881786);
  }

  /** The worked example with the prizes moved far away: only the second and fourth prizes can be won. */
  lemma ExampleTwo()
    ensures AllSolvable(Example, LocationOffset)
    ensures MinSpendForMostPrizes(Example, LocationOffset) == 875318608908
  {
    var m0, m1, m2, m3 := Example[0], Example[1], Example[2], Example[3];
    assert Example == [m0, m1, m2, m3];
    FarFirstLost();
    FarSecondWon();
    FarThirdLost();
    FarFourthWon();
    TotalOfFour(m0, m1, m2, m3, LocationOffset);
  }

  /** A winnable machine's accepted solution has nonnegative presses. */
  lemma WonNonnegative(m: Machine, a: nat, b: nat)
    requires Solvable(m) && Reaches(m, a, b)
    ensures Nonnegative(Solve(m))
  {
    SolveFindsSolution(m, a, b);
  }

  /** Four machines whose accepted solutions all have nonnegative presses. */
  lemma NonnegativeOfFour(m0: Machine, m1: Machine, m2: Machine, m3: Machine, offset: int)
    requires Solvable(WithOffset(m0, offset)) && Nonnegative(Solve(WithOffset(m0, offset)))
    requires Solvable(WithOffset(m1, offset)) && Nonnegative(Solve(WithOffset(m1, offset)))
    requires Solvable(WithOffset(m2, offset)) && Nonnegative(Solve(WithOffset(m2, offset)))
    requires Solvable(WithOffset(m3, offset)) && Nonnegative(Solve(WithOffset(m3, offset)))
    ensures AllSolvable([m0, m1, m2, m3], offset)
    ensures forall k :: 0 <= k < 4 ==> Nonnegative(Solve(WithOffset([m0, m1, m2, m3][k], offset)))
  {
  }

  /** The nonnegativity of each example machine's accepted solution, one machine at a time. */
  lemma ExampleEachNonnegative(k: nat)
    requires k < 4
    ensures Solvable(WithOffset(Example[k], 0)) && Nonnegative(Solve(WithOffset(Example[k], 0)))
  {
    assert WithOffset(Example[k], 0) == Example[k];
    if k == 0 {
      WonNonnegative(Example[0], 80, 40);
    } else if k == 1 {
      ExampleSecondLost();
    } else if k == 2 {
      WonNonnegative(Example[2], 38, 86);
    } else {
      ExampleFourthLost();
    }
  }

  /** Every accepted solution of the worked example has nonnegative presses. */
  lemma ExampleNonnegative()
    ensures AllSolvable(Example, 0)
    ensures forall k :: 0 <= k < |Example| ==> Nonnegative(Solve(WithOffset(Example[k], 0)))
  {
    ExampleEachNonnegative(0);
    ExampleEachNonnegative(1);
    ExampleEachNonnegative(2);
    ExampleEachNonnegative(3);
    NonnegativeOfFour(Example[0], Example[1], Example[2], Example[3], 0);
    assert Example == [Example[0], Example[1], Example[2], Example[3]];
  }

  /** The source's own total for the worked example: 480, as its first test expects. */
  lemma ExampleOneAsWritten()
    ensures AllSolvable(Example, 0)
    ensures MinSpendAsWritten(Example, 0) == 480
  {
    ExampleOne();
    ExampleNonnegative();
    SpendAgrees(Example, 0);
  }

  lemma FarEachNonnegative(k: nat)
    requires k < 4
    ensures Solvable(WithOffset(Example[k], LocationOffset)) && Nonnegative(Solve(WithOffset(Example[k], LocationOffset)))
  {
    if k == 0 {
      FarFirstNone();
    } else if k == 1 {
      WonNonnegative(WithOffset(Example[1], LocationOffset), 118679050709, 103199174542);
    } else if k == 2 {
      FarThirdNone();
    } else {
      WonNonnegative(WithOffset(Example[3], LocationOffset), 102851800151, 107526881786);
    }
  }

  /** With the prizes moved far away, every accepted solution still has nonnegative presses. */
  lemma FarNonnegative()
    ensures AllSolvable(Example, LocationOffset)
    ensures forall k :: 0 <= k < |Example| ==> Nonnegative(Solve(WithOffset(Example[k], LocationOffset)))
  {
    FarEachNonnegative(0);
    FarEachNonnegative(1);
    FarEachNonnegative(2);
    FarEachNonnegative(3);
    NonnegativeOfFour(Example[0], Example[1], Example[2], Example[3], LocationOffset);
    assert Example == [Example[0], Example[1], Example[2], Example[3]];
  }

  lemma FarFirstNone()
    ensures Solvable(WithOffset(Example[0], LocationOffset)) && Solve(WithOffset(Example[0], LocationOffset)) == None
  {
    TruncDivUnique(600000000222000, 5550, 108108108148);
    TruncDivUnique(7621621629144, 94, 81081081161);
  }

  lemma FarThirdNone()
    ensures Solvable(WithOffset(Example[2], LocationOffset)) && Solve(WithOffset(Example[2], LocationOffset)) == None
  {
    TruncDivUnique(-690000000567170, -6595, 104624715779);
    TruncDivUnique(1211523882434, 17, 71266110731);
  }

  /** The source's own total for the far-away prizes: 875318608908. */
  lemma ExampleTwoAsWritten()
    ensures AllSolvable(Example, LocationOffset)
    ensures MinSpendAsWritten(Example, LocationOffset) == 875318608908
  {
    ExampleTwo();
    FarNonnegative();
    SpendAgrees(Example, LocationOffset);
  }
}
