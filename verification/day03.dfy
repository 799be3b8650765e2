/**
 Day 3, part 2 preprocessing: `clean_do_donts` cuts every span from a
 `don't()` up to and including the next `do()` out of the program text,
 so that only enabled instructions remain for the multiplication scan.
 */
module Day03 {
  import opened Common

  const DONT: string := "don't()"
  const DO: string := "do()"

  /** `pat` occurs in `s` starting at index `i`. */
  predicate OccursAt(s: string, pat: string, i: nat)
  {
    i + |pat| <= |s| && s[i..i + |pat|] == pat
  }

  lemma OccursShift(s: string, pat: string, i: nat)
    requires |s| > 0
    ensures OccursAt(s[1..], pat, i) <==> OccursAt(s, pat, i + 1)
  {
    if i + 1 + |pat| <= |s| {
      assert s[1..][i..i + |pat|] == s[i + 1..i + 1 + |pat|];
    }
  }

  lemma OccursDrop(s: string, pat: string, k: nat, i: nat)
    requires k <= |s|
    ensures OccursAt(s[k..], pat, i) <==> OccursAt(s, pat, k + i)
  {
    if k + i + |pat| <= |s| {
      assert s[k..][i..i + |pat|] == s[k + i..k + i + |pat|];
    }
  }

  function FindFrom(s: string, pat: string, i: nat): (r: Option<nat>)
    requires i <= |s|
    ensures r.Some? ==> i <= r.value && OccursAt(s, pat, r.value)
    ensures r.Some? ==> forall j :: i <= j < r.value ==> !OccursAt(s, pat, j)
    ensures r.None? ==> forall j :: i <= j ==> !OccursAt(s, pat, j)
    decreases |s| - i
  {
    if i + |pat| > |s| then None
    else if s[i..i + |pat|] == pat then Some(i)
    else if i == |s| then None
    else FindFrom(s, pat, i + 1)
  }

  /** `str::find`: the first index at which `pat` occurs. */
  function Find(s: string, pat: string): (r: Option<nat>)
    ensures r.Some? ==> OccursAt(s, pat, r.value)
    ensures r.Some? ==> forall j :: 0 <= j < r.value ==> !OccursAt(s, pat, j)
    ensures r.None? ==> forall j :: 0 <= j ==> !OccursAt(s, pat, j)
  {
    FindFrom(s, pat, 0)
  }

  /**
   `clean_do_donts`: keep the text before the first `don't()`; drop it, and
   everything up to and including the next `do()`; repeat on the rest. A
   `don't()` with no later `do()` drops the remainder of the text.
   */
  function CleanDoDonts(s: string): (r: string)
    ensures |r| <= |s|
    ensures Find(s, DONT).None? ==> r == s
    ensures Find(s, DONT).Some? ==> s[..Find(s, DONT).value] <= r
    ensures Find(s, DONT).Some? ==>
              (Find(s[Find(s, DONT).value + |DONT|..], DO).None? ==> r == s[..Find(s, DONT).value])
    decreases |s|
  {
    match Find(s, DONT)
    case None => s
    case Some(start) =>
      var remaining := s[start + |DONT|..];
      match Find(remaining, DO)
      case None => s[..start]
      case Some(end) => s[..start] + CleanDoDonts(remaining[end + |DO|..])
  }

  /**
   The intended meaning, one character at a time: while enabled, a `don't()`
   disables and every other character is kept; while disabled, a `do()`
   enables and every other character is dropped.
   */
  function Walk(s: string, enabled: bool): string
    decreases |s|
  {
    if |s| == 0 then ""
    else if enabled && OccursAt(s, DONT, 0) then Walk(s[|DONT|..], false)
    else if enabled then [s[0]] + Walk(s[1..], true)
    else if OccursAt(s, DO, 0) then Walk(s[|DO|..], true)
    else Walk(s[1..], false)
  }

  lemma {:induction false} WalkEnabledPrefix(s: string, k: nat)
    requires k <= |s|
    requires forall j :: 0 <= j < k ==> !OccursAt(s, DONT, j)
    ensures Walk(s, true) == s[..k] + Walk(s[k..], true)
    decreases k
  {
    if k > 0 {
      assert !OccursAt(s, DONT, 0);
      forall j | 0 <= j < k - 1
        ensures !OccursAt(s[1..], DONT, j)
      {
        OccursShift(s, DONT, j);
      }
      WalkEnabledPrefix(s[1..], k - 1);
      assert s[1..][k - 1..] == s[k..];
      assert s[..k] == [s[0]] + s[1..][..k - 1];
    }
  }

  lemma {:induction false} WalkDisabledSkip(s: string, k: nat)
    requires k <= |s|
    requires forall j :: 0 <= j < k ==> !OccursAt(s, DO, j)
    ensures Walk(s, false) == Walk(s[k..], false)
    decreases k
  {
    if k > 0 {
      assert !OccursAt(s, DO, 0);
      forall j | 0 <= j < k - 1
        ensures !OccursAt(s[1..], DO, j)
      {
        OccursShift(s, DO, j);
      }
      WalkDisabledSkip(s[1..], k - 1);
      assert s[1..][k - 1..] == s[k..];
    }
  }

  /** The cutting recursion computes exactly the character-by-character meaning. */
  lemma {:induction false} CleanDoDontsIsWalk(s: string)
    ensures CleanDoDonts(s) == Walk(s, true)
    decreases |s|
  {
    match Find(s, DONT)
    case None =>
      WalkEnabledPrefix(s, |s|);
      assert s[..|s|] == s;
    case Some(start) =>
      WalkEnabledPrefix(s, start);
      var rest := s[start..];
      assert OccursAt(rest, DONT, 0) by { OccursDrop(s, DONT, start, 0); }
      assert Walk(rest, true) == Walk(rest[|DONT|..], false);
      var remaining := s[start + |DONT|..];
      assert rest[|DONT|..] == remaining;
      match Find(remaining, DO)
      case None =>
        WalkDisabledSkip(remaining, |remaining|);
      case Some(end) =>
        WalkDisabledSkip(remaining, end);
        var after := remaining[end..];
        assert OccursAt(after, DO, 0) by { OccursDrop(remaining, DO, end, 0); }
        assert after[|DO|..] == remaining[end + |DO|..];
        CleanDoDontsIsWalk(remaining[end + |DO|..]);
  }
}
