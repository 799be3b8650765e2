/**
 Day 7: calibration equations. A total is achievable when the operands,
 combined strictly left to right with `+`, `*` and (in part 2) decimal
 concatenation, can produce it. The search prunes any branch whose running
 value already exceeds the total.
 */
module Day07 {
  import opened Common
  import opened Decimal

  datatype Calibration = Calibration(total: nat, operands: seq<nat>)

  /** Decimal concatenation `format!("{}{}", a, b)` read back as a number. */
  function ConcatOperands(a: nat, b: nat): (r: nat)
    ensures r == a * Pow10(NumDigits(b)) + b
    ensures r >= a
  {
    ConcatValue(a, b);
    Value(Show(a) + Show(b))
  }

  lemma ConcatValue(a: nat, b: nat)
    ensures AllDigits(Show(a) + Show(b))
    ensures Value(Show(a) + Show(b)) == a * Pow10(NumDigits(b)) + b
    ensures a * Pow10(NumDigits(b)) + b >= a
  {
    var sa, sb := Show(a), Show(b);
    ValueAppend(sa, sb);
    ValueShow(a);
    ValueShow(b);
    MulGe(a, Pow10(NumDigits(b)));
  }

  lemma MulGe(a: nat, p: nat)
    requires p >= 1
    ensures a * p >= a
  {
  }

  /** The search of the source, trying `+`, then `*`, then (if allowed) concatenation. */
  function Solveable(target: nat, current: nat, operands: seq<nat>, concat: bool): (r: bool)
    ensures current > target ==> !r
    ensures |operands| == 0 ==> (r <==> current == target)
    decreases |operands|
  {
    if current > target then false
    else if |operands| == 0 then current == target
    else
      var operand := operands[0];
      var rest := operands[1..];
      if Solveable(target, current + operand, rest, concat) then true
      else if Solveable(target, current * operand, rest, concat) then true
      else if concat && Solveable(target, ConcatOperands(current, operand), rest, true) then true
      else false
  }

  // ---------------------------------------------------------------- reference semantics

  datatype Op = Add | Mul | Cat

  function Apply(op: Op, a: nat, b: nat): nat
  {
    match op
    case Add => a + b
    case Mul => a * b
    case Cat => ConcatOperands(a, b)
  }

  /** Left-to-right evaluation with one chosen operator per operand. */
  function Eval(current: nat, operands: seq<nat>, ops: seq<Op>): nat
    requires |ops| == |operands|
    decreases |operands|
  {
    if |operands| == 0 then current else Eval(Apply(ops[0], current, operands[0]), operands[1..], ops[1..])
  }

  predicate Allowed(ops: seq<Op>, concat: bool)
  {
    concat || Cat !in ops
  }

  /** Some choice of operators (concatenation only when allowed) evaluates to `target`. */
  ghost predicate Reaches(target: nat, current: nat, operands: seq<nat>, concat: bool)
  {
    exists ops :: |ops| == |operands| && Allowed(ops, concat) && Eval(current, operands, ops) == target
  }

  /** No running value along the evaluation exceeds `target`. */
  predicate Bounded(target: nat, current: nat, operands: seq<nat>, ops: seq<Op>)
    requires |ops| == |operands|
    decreases |operands|
  {
    current <= target
    && (|operands| == 0 || Bounded(target, Apply(ops[0], current, operands[0]), operands[1..], ops[1..]))
  }

  lemma AllowedTail(ops: seq<Op>, concat: bool)
    requires |ops| > 0 && Allowed(ops, concat)
    ensures Allowed(ops[1..], concat)
  {
    if !concat {
      assert forall i :: 0 <= i < |ops[1..]| ==> ops[1..][i] == ops[i + 1];
    }
  }

  /** Whatever the search accepts is reachable. */
  lemma {:induction false} SolveableSound(target: nat, current: nat, operands: seq<nat>, concat: bool)
    requires Solveable(target, current, operands, concat)
    ensures Reaches(target, current, operands, concat)
    decreases |operands|
  {
    if |operands| == 0 {
      assert Eval(current, operands, []) == target;
    } else {
      var operand, rest := operands[0], operands[1..];
      var op: Op, next: nat;
      if Solveable(target, current + operand, rest, concat) {
        op, next := Add, current + operand;
      } else if Solveable(target, current * operand, rest, concat) {
        op, next := Mul, current * operand;
      } else {
        op, next := Cat, ConcatOperands(current, operand);
      }
      SolveableSound(target, next, rest, concat);
      var tail :| |tail| == |rest| && Allowed(tail, concat) && Eval(next, rest, tail) == target;
      var ops := [op] + tail;
      assert ops[1..] == tail;
      assert Allowed(ops, concat);
      assert Eval(current, operands, ops) == target;
    }
  }

  /** The search finds every evaluation that never overshoots the target. */
  lemma {:induction false} SolveableCompleteBounded(target: nat, current: nat, operands: seq<nat>, ops: seq<Op>, concat: bool)
    requires |ops| == |operands| && Allowed(ops, concat)
    requires Bounded(target, current, operands, ops) && Eval(current, operands, ops) == target
    ensures Solveable(target, current, operands, concat)
    decreases |operands|
  {
    if |operands| > 0 {
      AllowedTail(ops, concat);
      SolveableCompleteBounded(target, Apply(ops[0], current, operands[0]), operands[1..], ops[1..], concat);
    }
  }

  /** Applying an operator never lowers the value, except multiplying by zero. */
  lemma ApplyGrows(op: Op, a: nat, b: nat)
    requires !(op == Mul && b == 0)
    ensures Apply(op, a, b) >= a
  {
    if op == Mul {
      assert a * b >= a * 1;
    }
  }

  /**
   An evaluation either never overshoots, or some suffix of it starts from 0
   (right after a multiplication by zero) and never overshoots from there.
   */
  lemma {:induction false} BoundedOrRestart(target: nat, current: nat, operands: seq<nat>, ops: seq<Op>)
    requires |ops| == |operands| && Eval(current, operands, ops) == target
    ensures Bounded(target, current, operands, ops)
            || exists k :: 1 <= k <= |operands| && Bounded(target, 0, operands[k..], ops[k..])
                           && Eval(0, operands[k..], ops[k..]) == target
    decreases |operands|
  {
    if |operands| > 0 {
      var next := Apply(ops[0], current, operands[0]);
      BoundedOrRestart(target, next, operands[1..], ops[1..]);
      if Bounded(target, next, operands[1..], ops[1..]) {
        if current > target {
          if ops[0] == Mul && operands[0] == 0 {
            assert 1 <= 1 <= |operands| && Bounded(target, 0, operands[1..], ops[1..]);
          } else {
            ApplyGrows(ops[0], current, operands[0]);
          }
        }
      } else {
        var k :| 1 <= k <= |operands[1..]| && Bounded(target, 0, operands[1..][k..], ops[1..][k..])
                 && Eval(0, operands[1..][k..], ops[1..][k..]) == target;
        assert operands[1..][k..] == operands[k + 1..] && ops[1..][k..] == ops[k + 1..];
      }
    }
  }

  /** `k` multiplications. */
  function Muls(k: nat): (r: seq<Op>)
    ensures |r| == k && Cat !in r
  {
    if k == 0 then [] else [Mul] + Muls(k - 1)
  }

  /** Starting from 0, multiplying through the first `k` operands stays at 0. */
  lemma {:induction false} ZeroPrefix(target: nat, operands: seq<nat>, k: nat, suffix: seq<Op>)
    requires k <= |operands| && |suffix| == |operands| - k
    requires Bounded(target, 0, operands[k..], suffix)
    ensures Bounded(target, 0, operands, Muls(k) + suffix)
    ensures Eval(0, operands, Muls(k) + suffix) == Eval(0, operands[k..], suffix)
    decreases k
  {
    if k > 0 {
      assert operands[1..][k - 1..] == operands[k..];
      ZeroPrefix(target, operands[1..], k - 1, suffix);
      var ops := Muls(k) + suffix;
      assert ops[0] == Mul;
      assert ops[1..] == Muls(k - 1) + suffix;
      assert Apply(ops[0], 0, operands[0]) == 0;
    } else {
      assert Muls(k) + suffix == suffix;
      assert operands[k..] == operands;
    }
  }

  /**
   From a start of 0, the search finds a total exactly when some choice of
   operators produces it: pruning at "running value > target" loses nothing,
   since a multiplication by zero can be replaced by multiplying from the start.
   */
  lemma SolveableIff(target: nat, operands: seq<nat>, concat: bool)
    ensures Solveable(target, 0, operands, concat) <==> Reaches(target, 0, operands, concat)
  {
    if Solveable(target, 0, operands, concat) {
      SolveableSound(target, 0, operands, concat);
    }
    if Reaches(target, 0, operands, concat) {
      var ops :| |ops| == |operands| && Allowed(ops, concat) && Eval(0, operands, ops) == target;
      BoundedOrRestart(target, 0, operands, ops);
      if Bounded(target, 0, operands, ops) {
        SolveableCompleteBounded(target, 0, operands, ops, concat);
      } else {
        var k :| 1 <= k <= |operands| && Bounded(target, 0, operands[k..], ops[k..])
                 && Eval(0, operands[k..], ops[k..]) == target;
        ZeroPrefix(target, operands, k, ops[k..]);
        var ops' := Muls(k) + ops[k..];
        assert Allowed(ops', concat) by {
          if !concat {
            forall i | 0 <= i < |ops'|
              ensures ops'[i] != Cat
            {
              if i >= k {
                assert ops'[i] == ops[i];
              }
            }
          }
        }
        SolveableCompleteBounded(target, 0, operands, ops', concat);
      }
    }
  }

  /** Allowing concatenation only adds options. */
  lemma {:induction false} ConcatWidens(target: nat, current: nat, operands: seq<nat>)
    requires Solveable(target, current, operands, false)
    ensures Solveable(target, current, operands, true)
    decreases |operands|
  {
    if |operands| > 0 {
      var operand, rest := operands[0], operands[1..];
      if Solveable(target, current + operand, rest, false) {
        ConcatWidens(target, current + operand, rest);
      } else {
        ConcatWidens(target, current * operand, rest);
      }
    }
  }

  // ---------------------------------------------------------------- totals

  /**
   Sum of the totals of the calibrations the search accepts from 0. Every
   accepted total is part of the sum, and the sum is 0 exactly when every
   accepted total is 0.
   */
  function TotalCalibration(cals: seq<Calibration>, concat: bool): (sum: nat)
    ensures forall i :: 0 <= i < |cals| && Solveable(cals[i].total, 0, cals[i].operands, concat) ==> cals[i].total <= sum
    ensures sum == 0 <==> forall i :: 0 <= i < |cals| && Solveable(cals[i].total, 0, cals[i].operands, concat) ==> cals[i].total == 0
    decreases |cals|
  {
    if |cals| == 0 then 0
    else
      var rest := TotalCalibration(cals[1..], concat);
      assert forall i :: 1 <= i < |cals| ==> cals[i] == cals[1..][i - 1];
      (if Solveable(cals[0].total, 0, cals[0].operands, concat) then cals[0].total else 0) + rest
  }

  /** Part 1 never exceeds part 2. */
  lemma {:induction false} TotalWithoutConcatLe(cals: seq<Calibration>)
    ensures TotalCalibration(cals, false) <= TotalCalibration(cals, true)
    decreases |cals|
  {
    if |cals| > 0 {
      if Solveable(cals[0].total, 0, cals[0].operands, false) {
        ConcatWidens(cals[0].total, 0, cals[0].operands);
      }
      TotalWithoutConcatLe(cals[1..]);
    }
  }

  /** Lines of the worked example: `190: 10 19` needs only `*`, `156: 15 6` needs concatenation. */
  lemma ExampleLines()
    ensures Solveable(190, 0, [10, 19], false)
    ensures !Solveable(83, 0, [17, 5], true)
    ensures !Solveable(156, 0, [15, 6], false) && Solveable(156, 0, [15, 6], true)
  {
  }
}
