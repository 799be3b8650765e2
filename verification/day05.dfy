/**
 Day 5: page-ordering rules `before|after` and updates (lists of pages).
 An update is valid when no page has a rule demanding it come before a page
 printed earlier; invalid updates are repaired by repeated swaps. Both parts
 sum the middle page of the updates they select.
 */
module Day05 {
  import opened Common
  import opened Decimal
  import opened Text

  datatype PageOrdering = PageOrdering(before: nat, after: nat)

  // ---------------------------------------------------------------- parsing

  /** `before|after`: split at the first `|`, both sides `u64`. */
  function ParseRule(s: string): (r: Option<PageOrdering>)
    ensures '|' !in s ==> r.None?
    ensures r.Some? ==> exists a, b :: (s == a + ['|'] + b && '|' !in a
                        && ParseU64(a) == Some(r.value.before) && ParseU64(b) == Some(r.value.after))
  {
    match SplitOnce(s, '|')
    case None => None
    case Some((a, b)) =>
      match (ParseU64(a), ParseU64(b))
      case (Some(x), Some(y)) => Some(PageOrdering(x, y))
      case _ => None
  }

  /** A rule written back out in its textual form parses to itself. */
  lemma ParseRuleShow(rule: PageOrdering)
    requires rule.before <= U64_MAX && rule.after <= U64_MAX
    ensures ParseRule(Show(rule.before) + ['|'] + Show(rule.after)) == Some(rule)
  {
    DigitsExclude(Show(rule.before), '|');
    SplitOnceJoin(Show(rule.before), Show(rule.after), '|');
    ParseU64Show(rule.before);
    ParseU64Show(rule.after);
  }

  /** `collect::<Result<Vec<u64>, _>>`: every token parses, or the whole list fails. */
  function ParseNumbers(tokens: seq<string>): (r: Option<seq<nat>>)
    ensures r.Some? <==> forall i :: 0 <= i < |tokens| ==> ParseU64(tokens[i]).Some?
    ensures r.Some? ==> |r.value| == |tokens|
                        && forall i :: 0 <= i < |tokens| ==> ParseU64(tokens[i]) == Some(r.value[i])
  {
    if |tokens| == 0 then Some([])
    else
      var rest := ParseNumbers(tokens[1..]);
      assert forall i :: 1 <= i < |tokens| ==> tokens[i] == tokens[1..][i - 1];
      var first := ParseU64(tokens[0]);
      if first.None? then None
      else if rest.None? then
        assert exists i :: 1 <= i < |tokens| && ParseU64(tokens[i]).None?;
        None
      else
        var r := [first.value] + rest.value;
        assert forall i :: 1 <= i < |tokens| ==> r[i] == rest.value[i - 1];
        Some(r)
  }

  /** One update line: comma-separated page numbers. */
  function ParseUpdate(line: string): (r: Option<seq<nat>>)
    ensures r.Some? ==> |r.value| >= 1
  {
    ParseNumbers(Split(line, ','))
  }

  /** The rendering of every page of an update. */
  function ShowAll(u: seq<nat>): (r: seq<string>)
    ensures |r| == |u| && forall i :: 0 <= i < |u| ==> r[i] == Show(u[i])
  {
    if |u| == 0 then [] else [Show(u[0])] + ShowAll(u[1..])
  }

  lemma ShowAllParses(u: seq<nat>)
    requires forall i :: 0 <= i < |u| ==> u[i] <= U64_MAX
    ensures forall i :: 0 <= i < |u| ==> ',' !in ShowAll(u)[i] && ParseU64(ShowAll(u)[i]) == Some(u[i])
  {
    var pieces := ShowAll(u);
    forall i | 0 <= i < |pieces|
      ensures ',' !in pieces[i]
      ensures ParseU64(pieces[i]) == Some(u[i])
    {
      ParseU64Show(u[i]);
      DigitsExclude(pieces[i], ',');
    }
  }

  /** A non-empty update written out with commas parses back to itself. */
  lemma ParseUpdateShow(u: seq<nat>)
    requires |u| >= 1 && forall i :: 0 <= i < |u| ==> u[i] <= U64_MAX
    ensures ParseUpdate(Join(ShowAll(u), ',')) == Some(u)
  {
    var pieces := ShowAll(u);
    ShowAllParses(u);
    SplitJoin(pieces, ',');
    var r := ParseNumbers(pieces).value;
    assert |r| == |u| && forall i :: 0 <= i < |u| ==> r[i] == u[i];
    assert r == u;
  }

  /** The rules and updates read so far, or a parse error. */
  function Prepend(rule: Option<PageOrdering>, rest: Option<(seq<PageOrdering>, seq<seq<nat>>)>)
    : Option<(seq<PageOrdering>, seq<seq<nat>>)>
  {
    if rule.None? || rest.None? then None else Some(([rule.value] + rest.value.0, rest.value.1))
  }

  /**
   The line loop: an empty line sets the gap flag; before the gap a line is a
   rule, after it an update. The first unparsable line is an error.
   */
  function Load(lines: seq<string>, gap: bool): (r: Option<(seq<PageOrdering>, seq<seq<nat>>)>)
    ensures gap && r.Some? ==> r.value.0 == []
    ensures r.Some? ==> forall i :: 0 <= i < |r.value.1| ==> |r.value.1[i]| >= 1
  {
    if |lines| == 0 then Some(([], []))
    else if |lines[0]| == 0 then Load(lines[1..], true)
    else if !gap then Prepend(ParseRule(lines[0]), Load(lines[1..], false))
    else
      var u := ParseUpdate(lines[0]);
      var rest := Load(lines[1..], true);
      if u.None? || rest.None? then None else Some((rest.value.0, [u.value] + rest.value.1))
  }

  function LoadData(lines: seq<string>): (r: Option<(seq<PageOrdering>, seq<seq<nat>>)>)
    ensures r.Some? ==> forall i :: 0 <= i < |r.value.1| ==> |r.value.1[i]| >= 1
  {
    Load(lines, false)
  }

  /** Index of the first empty line, or the number of lines when there is none. */
  function FirstBlank(lines: seq<string>): (k: nat)
    ensures k <= |lines|
    ensures forall i :: 0 <= i < k ==> |lines[i]| > 0
    ensures k < |lines| ==> |lines[k]| == 0
  {
    if |lines| == 0 then 0 else if |lines[0]| == 0 then 0 else 1 + FirstBlank(lines[1..])
  }

  /** Every rule line parses; the list of the rules. */
  function ParseRules(lines: seq<string>): Option<seq<PageOrdering>>
  {
    if |lines| == 0 then Some([])
    else
      var rest := ParseRules(lines[1..]);
      var rule := ParseRule(lines[0]);
      if rule.None? || rest.None? then None else Some([rule.value] + rest.value)
  }

  /** Every non-empty update line parses; empty lines are skipped. */
  function ParseUpdates(lines: seq<string>): Option<seq<seq<nat>>>
  {
    if |lines| == 0 then Some([])
    else
      var rest := ParseUpdates(lines[1..]);
      if |lines[0]| == 0 then rest
      else
        var u := ParseUpdate(lines[0]);
        if u.None? || rest.None? then None else Some([u.value] + rest.value)
  }

  function Pair<A, B>(a: Option<A>, b: Option<B>): Option<(A, B)>
  {
    if a.None? || b.None? then None else Some((a.value, b.value))
  }

  lemma {:induction false} LoadAfterGap(lines: seq<string>)
    ensures Load(lines, true) == Pair(Some([]), ParseUpdates(lines))
    decreases |lines|
  {
    if |lines| > 0 {
      LoadAfterGap(lines[1..]);
    }
  }

  /**
   The lines before the first empty line are the rules, and the non-empty lines
   after it are the updates; any later empty line is ignored.
   */
  lemma {:induction false} LoadDataSplit(lines: seq<string>)
    ensures LoadData(lines)
            == Pair(ParseRules(lines[..FirstBlank(lines)]), ParseUpdates(lines[FirstBlank(lines)..]))
    decreases |lines|
  {
    if |lines| == 0 {
    } else if |lines[0]| == 0 {
      LoadAfterGap(lines[1..]);
    } else {
      LoadDataSplit(lines[1..]);
      assert lines[..FirstBlank(lines)][1..] == lines[1..][..FirstBlank(lines[1..])];
      assert lines[FirstBlank(lines)..] == lines[1..][FirstBlank(lines[1..])..];
    }
  }

  // ---------------------------------------------------------------- validity

  /** Some rule says `page` must come before a page in `prior`. */
  function RuleFires(rules: seq<PageOrdering>, page: nat, prior: seq<nat>): (r: bool)
    ensures r <==> exists k :: 0 <= k < |rules| && rules[k].before == page && rules[k].after in prior
  {
    if |rules| == 0 then false
    else
      assert forall k :: 1 <= k < |rules| ==> rules[k] == rules[1..][k - 1];
      (rules[0].before == page && rules[0].after in prior) || RuleFires(rules[1..], page, prior)
  }

  /** No page from index `i` on breaks a rule against the pages before it. */
  function ValidFrom(u: seq<nat>, rules: seq<PageOrdering>, i: nat): bool
    decreases |u| - i
  {
    i >= |u| || (!RuleFires(rules, u[i], u[..i]) && ValidFrom(u, rules, i + 1))
  }

  /**
   The check the source applies to each update. With no rules, or with at
   most one page, an update is valid; an invalid update holds both pages of
   some rule.
   */
  function UpdateValid(u: seq<nat>, rules: seq<PageOrdering>): (valid: bool)
    ensures |rules| == 0 || |u| <= 1 ==> valid
    ensures !valid ==> |u| >= 2 && exists k :: 0 <= k < |rules| && rules[k].before in u && rules[k].after in u
  {
    NoViolationIff(u, rules);
    if !ValidFrom(u, rules, 0) then
      var j, i, k :| Violation(u, rules, j, i, k);
      assert rules[k].before == u[i] && rules[k].after == u[j];
      false
    else
      true
  }

  /** Page `u[i]` is required before the earlier page `u[j]`. */
  predicate Violation(u: seq<nat>, rules: seq<PageOrdering>, j: int, i: int, k: int)
  {
    0 <= j < i < |u| && 0 <= k < |rules| && rules[k].before == u[i] && rules[k].after == u[j]
  }

  /** The first `n` positions are free of violations. */
  ghost predicate PrefixValid(u: seq<nat>, rules: seq<PageOrdering>, n: int)
  {
    forall j, i, k :: 0 <= j < i < |u| && i < n && 0 <= k < |rules| ==> !(rules[k].before == u[i] && rules[k].after == u[j])
  }

  lemma PrefixValidStep(u: seq<nat>, rules: seq<PageOrdering>, idx: nat)
    requires idx < |u| && PrefixValid(u, rules, idx)
    requires !RuleFires(rules, u[idx], u[..idx])
    ensures PrefixValid(u, rules, idx + 1)
  {
    forall j, i, k | 0 <= j < i < |u| && i < idx + 1 && 0 <= k < |rules|
      ensures !(rules[k].before == u[i] && rules[k].after == u[j])
    {
      if i == idx {
        assert u[..idx][j] == u[j];
      }
    }
  }

  lemma {:induction false} ValidFromIff(u: seq<nat>, rules: seq<PageOrdering>, n: nat)
    requires n <= |u| && PrefixValid(u, rules, n)
    ensures ValidFrom(u, rules, n) <==> PrefixValid(u, rules, |u|)
    decreases |u| - n
  {
    if n < |u| {
      if RuleFires(rules, u[n], u[..n]) {
        var k :| 0 <= k < |rules| && rules[k].before == u[n] && rules[k].after in u[..n];
        var j :| 0 <= j < n && u[..n][j] == rules[k].after;
        assert rules[k].before == u[n] && rules[k].after == u[j];
      } else {
        PrefixValidStep(u, rules, n);
        ValidFromIff(u, rules, n + 1);
      }
    }
  }

  lemma {:induction false} ValidFromNoFire(u: seq<nat>, rules: seq<PageOrdering>, n: nat, i: nat)
    requires ValidFrom(u, rules, n) && n <= i < |u|
    ensures !RuleFires(rules, u[i], u[..i])
    decreases i - n
  {
    if n < i {
      ValidFromNoFire(u, rules, n + 1, i);
    }
  }

  /** The scan from the first page succeeds exactly when no page is preceded by a page it is ruled to come before. */
  lemma NoViolationIff(u: seq<nat>, rules: seq<PageOrdering>)
    ensures ValidFrom(u, rules, 0) <==>
            !exists j, i, k :: Violation(u, rules, j, i, k)
  {
    ValidFromIff(u, rules, 0);
    if exists j, i, k :: Violation(u, rules, j, i, k) {
      var j, i, k :| Violation(u, rules, j, i, k);
      assert rules[k].before == u[i] && rules[k].after == u[j];
    } else {
      forall j, i, k | 0 <= j < i < |u| && 0 <= k < |rules|
        ensures !(rules[k].before == u[i] && rules[k].after == u[j])
      {
        assert !Violation(u, rules, j, i, k);
      }
    }
  }

  /** An update is valid exactly when no page is preceded by a page it is ruled to come before. */
  lemma UpdateValidIff(u: seq<nat>, rules: seq<PageOrdering>)
    ensures UpdateValid(u, rules) <==>
            !exists j, i, k :: Violation(u, rules, j, i, k)
  {
    NoViolationIff(u, rules);
  }

  // ---------------------------------------------------------------- repair

  /** Position of the first occurrence of `x` in `s`. */
  function Position(s: seq<nat>, x: nat): (r: nat)
    requires x in s
    ensures r < |s| && s[r] == x && x !in s[..r]
  {
    if s[0] == x then 0
    else
      var r := Position(s[1..], x) + 1;
      assert s[..r] == [s[0]] + s[1..][..r - 1];
      r
  }

  /**
   The swap partner for index `idx`: for the first rule (in rule order) whose
   `before` is `u[idx]` and whose `after` occurs before `idx`, the first
   position of that `after`.
   */
  function FindSwap(rules: seq<PageOrdering>, u: seq<nat>, idx: nat): (r: Option<nat>)
    requires idx < |u|
    ensures r.None? <==> !RuleFires(rules, u[idx], u[..idx])
    ensures r.Some? ==> r.value < idx
                        && exists k :: 0 <= k < |rules| && rules[k].before == u[idx] && rules[k].after == u[r.value]
  {
    if |rules| == 0 then None
    else if rules[0].before == u[idx] && rules[0].after in u[..idx] then
      Some(Position(u[..idx], rules[0].after))
    else
      assert forall k :: 1 <= k < |rules| ==> rules[k] == rules[1..][k - 1];
      FindSwap(rules[1..], u, idx)
  }

  function Swap(s: seq<nat>, i: nat, j: nat): (r: seq<nat>)
    requires i < |s| && j < |s|
    ensures |r| == |s| && multiset(r) == multiset(s)
    ensures r[i] == s[j] && r[j] == s[i]
    ensures forall k :: 0 <= k < |s| && k != i && k != j ==> r[k] == s[k]
  {
    s[i := s[j]][j := s[i]]
  }

  lemma PrefixValidSwap(u: seq<nat>, rules: seq<PageOrdering>, idx: nat, s: nat)
    requires s < idx < |u| && PrefixValid(u, rules, idx)
    ensures PrefixValid(Swap(u, s, idx), rules, s)
  {
    var v := Swap(u, s, idx);
    forall j, i, k | 0 <= j < i < |v| && i < s && 0 <= k < |rules|
      ensures !(rules[k].before == v[i] && rules[k].after == v[j])
    {
      assert v[i] == u[i] && v[j] == u[j];
    }
  }

  /**
   The repair loop from index `idx`, with `fuel` bounding the number of
   iterations (with cyclic rules the loop need not end). `None` means the fuel
   ran out. Whatever it returns is a valid rearrangement of the update.
   */
  function CorrectUpdate(u: seq<nat>, rules: seq<PageOrdering>, idx: nat, fuel: nat): (r: Option<seq<nat>>)
    requires PrefixValid(u, rules, idx)
    ensures r.Some? ==> multiset(r.value) == multiset(u) && |r.value| == |u|
    ensures r.Some? ==> UpdateValid(r.value, rules)
    decreases fuel
  {
    if idx >= |u| then
      ValidFromIff(u, rules, 0);
      Some(u)
    else if fuel == 0 then None
    else
      match FindSwap(rules, u, idx)
      case None =>
        PrefixValidStep(u, rules, idx);
        CorrectUpdate(u, rules, idx + 1, fuel - 1)
      case Some(s) =>
        PrefixValidSwap(u, rules, idx, s);
        CorrectUpdate(Swap(u, s, idx), rules, s, fuel - 1)
  }

  /** A valid update passes through the repair loop untouched, given one step per page. */
  lemma {:induction false} CorrectValidUnchanged(u: seq<nat>, rules: seq<PageOrdering>, idx: nat, fuel: nat)
    requires UpdateValid(u, rules) && idx <= |u|
    requires fuel >= |u| - idx
    ensures PrefixValid(u, rules, idx)
    ensures CorrectUpdate(u, rules, idx, fuel) == Some(u)
    decreases |u| - idx
  {
    ValidFromIff(u, rules, 0);
    if idx < |u| {
      ValidFromNoFire(u, rules, 0, idx);
      CorrectValidUnchanged(u, rules, idx + 1, fuel - 1);
    }
  }

  lemma CorrectFromOne(u: seq<nat>, rules: seq<PageOrdering>, fuel: nat)
    ensures PrefixValid(u, rules, 1)
    ensures UpdateValid(u, rules) && fuel >= |u| ==> CorrectUpdate(u, rules, 1, fuel) == Some(u)
  {
    if UpdateValid(u, rules) && fuel >= |u| {
      if |u| == 0 {
        ValidFromIff(u, rules, 0);
      } else {
        CorrectValidUnchanged(u, rules, 1, fuel);
      }
    }
  }

  /** Part 2's entry point: repair from index 1. */
  function Correct(u: seq<nat>, rules: seq<PageOrdering>, fuel: nat): (r: Option<seq<nat>>)
    ensures r.Some? ==> multiset(r.value) == multiset(u) && UpdateValid(r.value, rules)
    ensures UpdateValid(u, rules) && fuel >= |u| ==> r == Some(u)
  {
    CorrectFromOne(u, rules, fuel);
    CorrectUpdate(u, rules, 1, fuel)
  }

  // ---------------------------------------------------------------- the two sums

  function Middle(u: seq<nat>): nat
    requires |u| >= 1
  {
    u[|u| / 2]
  }

  predicate AllNonEmpty(us: seq<seq<nat>>)
  {
    forall i :: 0 <= i < |us| ==> |us[i]| >= 1
  }

  /**
   Part 1: the middle pages of the valid updates. Every valid update's middle
   page is part of the sum, and the sum is 0 exactly when every valid update
   has middle page 0.
   */
  function SumValidMiddlePages(rules: seq<PageOrdering>, us: seq<seq<nat>>): (sum: nat)
    requires AllNonEmpty(us)
    ensures forall i :: 0 <= i < |us| && UpdateValid(us[i], rules) ==> Middle(us[i]) <= sum
    ensures sum == 0 <==> forall i :: 0 <= i < |us| && UpdateValid(us[i], rules) ==> Middle(us[i]) == 0
    decreases |us|
  {
    if |us| == 0 then 0
    else
      var rest := SumValidMiddlePages(rules, us[1..]);
      assert forall i :: 1 <= i < |us| ==> us[i] == us[1..][i - 1];
      (if UpdateValid(us[0], rules) then Middle(us[0]) else 0) + rest
  }

  /**
   Part 2: the middle pages of the repaired invalid updates; `None` exactly
   when the repair of some invalid update runs out of fuel. When every update
   is valid, nothing is repaired and the sum is 0.
   */
  function SumCorrectedMiddlePages(rules: seq<PageOrdering>, us: seq<seq<nat>>, fuel: nat): (r: Option<nat>)
    requires AllNonEmpty(us)
    ensures (forall i :: 0 <= i < |us| ==> UpdateValid(us[i], rules)) ==> r == Some(0)
    ensures r.None? <==> exists i :: 0 <= i < |us| && !UpdateValid(us[i], rules) && Correct(us[i], rules, fuel).None?
    decreases |us|
  {
    if |us| == 0 then Some(0)
    else
      var rest := SumCorrectedMiddlePages(rules, us[1..], fuel);
      assert forall i :: 1 <= i < |us| ==> us[i] == us[1..][i - 1];
      if UpdateValid(us[0], rules) then rest
      else
        var c := Correct(us[0], rules, fuel);
        if c.None? || rest.None? then None
        else
          assert |c.value| == |us[0]| by {
            assert |multiset(c.value)| == |multiset(us[0])|;
          }
          Some(Middle(c.value) + rest.value)
  }

  /** Repairing every update, valid or not, and summing all middle pages. */
  function SumAllRepairedMiddlePages(rules: seq<PageOrdering>, us: seq<seq<nat>>, fuel: nat): Option<nat>
    requires AllNonEmpty(us)
  {
    if |us| == 0 then Some(0)
    else
      var rest := SumAllRepairedMiddlePages(rules, us[1..], fuel);
      var c := Correct(us[0], rules, fuel);
      if c.None? || rest.None? then None
      else
        assert |c.value| == |us[0]| by {
          assert |multiset(c.value)| == |multiset(us[0])|;
        }
        Some(Middle(c.value) + rest.value)
  }

  /**
   The two parts split the updates between them: repairing all of them (valid
   ones pass through untouched) gives the part 1 sum plus the part 2 sum.
   */
  lemma {:induction false} PartsPartitionUpdates(rules: seq<PageOrdering>, us: seq<seq<nat>>, fuel: nat)
    requires AllNonEmpty(us)
    requires forall i :: 0 <= i < |us| ==> fuel >= |us[i]|
    ensures SumCorrectedMiddlePages(rules, us, fuel).Some? <==> SumAllRepairedMiddlePages(rules, us, fuel).Some?
    ensures SumCorrectedMiddlePages(rules, us, fuel).Some? ==>
            SumAllRepairedMiddlePages(rules, us, fuel).value
            == SumValidMiddlePages(rules, us) + SumCorrectedMiddlePages(rules, us, fuel).value
    decreases |us|
  {
    if |us| > 0 {
      PartsPartitionUpdates(rules, us[1..], fuel);
    }
  }
}
