/**
 Day 2: reports of levels. A report is safe when its levels move in one
 direction by steps of one to three; the dampened check also accepts a
 report that becomes safe after removing a single level.
 */
module Day02 {
  import opened Common

  /** Verdict on one step, then on a run of steps. */
  datatype State = Increasing | Decreasing | Unsafe

  function Classify(diff: int): State
  {
    if diff > 3 || diff < -3 then Unsafe
    else if diff < 0 then Decreasing
    else if diff > 0 then Increasing
    else Unsafe
  }

  /** The reducer: two verdicts agree on a direction or the run is unsafe. */
  function Combine(a: State, b: State): State
  {
    match (a, b)
    case (Increasing, Increasing) => Increasing
    case (Decreasing, Decreasing) => Decreasing
    case _ => Unsafe
  }

  /** Left fold of `Combine`, as `Iterator::reduce` performs it after taking the first item. */
  function Fold(acc: State, rest: seq<State>): State
    decreases |rest|
  {
    if |rest| == 0 then acc else Fold(Combine(acc, rest[0]), rest[1..])
  }

  /** `Iterator::reduce`: nothing for an empty sequence. */
  function Reduce(states: seq<State>): Option<State>
  {
    if |states| == 0 then None else Some(Fold(states[0], states[1..]))
  }

  /** The verdict of each adjacent pair `(report[i], report[i + 1])`. */
  function Steps(report: seq<int>): (r: seq<State>)
    ensures |r| == if |report| < 2 then 0 else |report| - 1
    ensures forall i :: 0 <= i < |r| ==> r[i] == Classify(report[i + 1] - report[i])
  {
    if |report| < 2 then []
    else
      var rest := Steps(report[1..]);
      assert forall i :: 0 <= i < |rest| ==> rest[i] == Classify(report[i + 2] - report[i + 1]);
      [Classify(report[1] - report[0])] + rest
  }

  /**
   `report_safe`: the reduced verdict, defaulting to `Unsafe`, is a direction.
   This holds exactly when the report meets the intended meaning `SafeSpec`.
   */
  function ReportSafe(report: seq<int>): (safe: bool)
    ensures safe <==> SafeSpec(report)
  {
    var verdict := Reduce(Steps(report));
    if |report| >= 2 then
      var steps := Steps(report);
      assert verdict == Some(Fold(steps[0], steps[1..]));
      VerdictDirection(steps);
      StepsDirection(report);
      verdict.Some? && verdict.value != Unsafe
    else
      // fewer than two levels: no steps, so the reduction is empty and defaults to `Unsafe`
      assert verdict.None?;
      false
  }

  /** The intended meaning: at least two levels, and all steps are in 1..3 or all in -3..-1. */
  predicate SafeSpec(report: seq<int>)
  {
    |report| >= 2 && (AllRising(report) || AllFalling(report))
  }

  predicate AllRising(report: seq<int>)
  {
    forall i :: 0 <= i < |report| - 1 ==> 1 <= report[i + 1] - report[i] <= 3
  }

  predicate AllFalling(report: seq<int>)
  {
    forall i :: 0 <= i < |report| - 1 ==> -3 <= report[i + 1] - report[i] <= -1
  }

  predicate AllAre(states: seq<State>, d: State)
  {
    forall i :: 0 <= i < |states| ==> states[i] == d
  }

  lemma {:induction false} FoldDirection(acc: State, rest: seq<State>, d: State)
    requires d != Unsafe
    ensures Fold(acc, rest) == d <==> acc == d && AllAre(rest, d)
    decreases |rest|
  {
    if |rest| > 0 {
      FoldDirection(Combine(acc, rest[0]), rest[1..], d);
      if acc == d && AllAre(rest, d) {
        assert forall i :: 0 <= i < |rest[1..]| ==> rest[1..][i] == rest[i + 1];
      }
      if Fold(acc, rest) == d {
        forall i | 0 <= i < |rest|
          ensures rest[i] == d
        {
          if i > 0 { assert rest[i] == rest[1..][i - 1]; }
        }
      }
    }
  }

  lemma ClassifyDirection(diff: int)
    ensures Classify(diff) == Increasing <==> 1 <= diff <= 3
    ensures Classify(diff) == Decreasing <==> -3 <= diff <= -1
  {
  }

  lemma AllAreCons(states: seq<State>, d: State)
    requires |states| > 0
    ensures AllAre(states, d) <==> states[0] == d && AllAre(states[1..], d)
  {
    if states[0] == d && AllAre(states[1..], d) {
      forall i | 0 <= i < |states|
        ensures states[i] == d
      {
        if i > 0 { assert states[i] == states[1..][i - 1]; }
      }
    }
  }

  lemma StepsRising(report: seq<int>)
    ensures AllAre(Steps(report), Increasing) <==> AllRising(report)
  {
    var steps := Steps(report);
    if AllAre(steps, Increasing) {
      forall i | 0 <= i < |report| - 1
        ensures 1 <= report[i + 1] - report[i] <= 3
      {
        assert steps[i] == Increasing;
        ClassifyDirection(report[i + 1] - report[i]);
      }
    }
    if AllRising(report) {
      forall i | 0 <= i < |steps|
        ensures steps[i] == Increasing
      {
        ClassifyDirection(report[i + 1] - report[i]);
      }
    }
  }

  lemma StepsFalling(report: seq<int>)
    ensures AllAre(Steps(report), Decreasing) <==> AllFalling(report)
  {
    var steps := Steps(report);
    if AllAre(steps, Decreasing) {
      forall i | 0 <= i < |report| - 1
        ensures -3 <= report[i + 1] - report[i] <= -1
      {
        assert steps[i] == Decreasing;
        ClassifyDirection(report[i + 1] - report[i]);
      }
    }
    if AllFalling(report) {
      forall i | 0 <= i < |steps|
        ensures steps[i] == Decreasing
      {
        ClassifyDirection(report[i + 1] - report[i]);
      }
    }
  }

  lemma StepsDirection(report: seq<int>)
    ensures AllAre(Steps(report), Increasing) <==> AllRising(report)
    ensures AllAre(Steps(report), Decreasing) <==> AllFalling(report)
  {
    StepsRising(report);
    StepsFalling(report);
  }

  lemma VerdictDirection(steps: seq<State>)
    requires |steps| > 0
    ensures Fold(steps[0], steps[1..]) != Unsafe <==> AllAre(steps, Increasing) || AllAre(steps, Decreasing)
  {
    FoldDirection(steps[0], steps[1..], Increasing);
    FoldDirection(steps[0], steps[1..], Decreasing);
    AllAreCons(steps, Increasing);
    AllAreCons(steps, Decreasing);
  }

  /** Reports of zero or one level are unsafe: the empty reduction falls back to `Unsafe`. */
  lemma ShortReportUnsafe(report: seq<int>)
    requires |report| < 2
    ensures !ReportSafe(report)
  {
  }

  /** A flat step, or a step of more than three, makes the report unsafe. */
  lemma BadStepUnsafe(report: seq<int>, i: nat)
    requires i + 1 < |report|
    requires report[i + 1] == report[i] || report[i + 1] - report[i] > 3 || report[i + 1] - report[i] < -3
    ensures !ReportSafe(report)
  {
  }

  /** The dampened check: safe as is, or safe once some single level is removed. */
  predicate DampenedSafe(report: seq<int>)
  {
    ReportSafe(report) || exists i :: 0 <= i < |report| && ReportSafe(RemoveAt(report, i))
  }

  /** Whether removing one of the levels `from`, `from + 1`, … leaves a safe report. */
  function SafeAfterRemovalFrom(report: seq<int>, from: nat): (found: bool)
    requires from <= |report|
    ensures found <==> exists i :: from <= i < |report| && ReportSafe(RemoveAt(report, i))
    decreases |report| - from
  {
    if from == |report| then false
    else
      var shorter := RemoveAt(report, from);
      if ReportSafe(shorter) then true
      else
        SkipUnsafeRemoval(report, from);
        SafeAfterRemovalFrom(report, from + 1)
  }

  /** A removal already found unsafe can be skipped in the search. */
  lemma SkipUnsafeRemoval(report: seq<int>, from: nat)
    requires from < |report| && !ReportSafe(RemoveAt(report, from))
    ensures (exists i :: from <= i < |report| && ReportSafe(RemoveAt(report, i)))
            ==> exists i :: from + 1 <= i < |report| && ReportSafe(RemoveAt(report, i))
  {
    if exists i :: from <= i < |report| && ReportSafe(RemoveAt(report, i)) {
      var i :| from <= i < |report| && ReportSafe(RemoveAt(report, i));
      assert i != from;
    }
  }

  /** `report_safe_dampened`: try the report, then every report with one level removed, in order. */
  method ReportSafeDampened(report: seq<int>) returns (safe: bool)
    ensures safe <==> ReportSafe(report) || exists i :: 0 <= i < |report| && ReportSafe(RemoveAt(report, i))
  {
    if ReportSafe(report) {
      return true;
    }
    safe := SafeAfterRemovalFrom(report, 0);
  }

  /** Every safe report is also dampened-safe. */
  lemma SafeIsDampenedSafe(report: seq<int>)
    requires ReportSafe(report)
    ensures DampenedSafe(report)
  {
  }

  /** Part 1: the number of safe reports; 0 exactly when none is safe, all of them exactly when every one is. */
  function CountPureSafeReports(reports: seq<seq<int>>): (n: nat)
    ensures n <= |reports|
    ensures n == 0 <==> forall i :: 0 <= i < |reports| ==> !SafeSpec(reports[i])
    ensures n == |reports| <==> forall i :: 0 <= i < |reports| ==> SafeSpec(reports[i])
  {
    CountWhere(reports, r => ReportSafe(r))
  }

  /**
   Part 2: the number of reports that are safe, or safe with one level
   removed; 0 exactly when no report is, all of them exactly when every one is.
   */
  function CountDampenedSafeReports(reports: seq<seq<int>>): (n: nat)
    ensures n <= |reports|
    ensures n == 0 <==> forall i :: 0 <= i < |reports| ==> !DampenedSafe(reports[i])
    ensures n == |reports| <==> forall i :: 0 <= i < |reports| ==> DampenedSafe(reports[i])
  {
    CountWhere(reports, r => DampenedSafe(r))
  }

  /** The dampener only ever accepts more reports. */
  lemma CountPureLeDampened(reports: seq<seq<int>>)
    ensures CountPureSafeReports(reports) <= CountDampenedSafeReports(reports)
  {
    CountWhereMonotone(reports, r => ReportSafe(r), r => DampenedSafe(r));
  }
}
