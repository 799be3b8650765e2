/**
 Day 1: two columns of location ids. Part 1 sorts both columns and sums
 the distances of the paired entries; part 2 weighs every left id by how
 often it occurs in the right column.
 */
module Day01 {
  import opened Common
  import opened Decimal

  /** A line is usable when its first two whitespace-separated tokens parse as `u64`. */
  predicate LineOk(line: seq<string>)
  {
    |line| >= 2 && ParseU64(line[0]).Some? && ParseU64(line[1]).Some?
  }

  /** The two ids of one line, or None when the line is not usable. */
  function ParseLine(line: seq<string>): (r: Option<(nat, nat)>)
    ensures r.Some? <==> LineOk(line)
    ensures r.Some? ==> ParseU64(line[0]) == Some(r.value.0) && ParseU64(line[1]) == Some(r.value.1)
  {
    if |line| < 1 || ParseU64(line[0]).None? then None
    else if |line| < 2 || ParseU64(line[1]).None? then None
    else Some((ParseU64(line[0]).value, ParseU64(line[1]).value))
  }

  /**
   Splits the lines (each already split on whitespace) into the left and the
   right column. Tokens after the second are ignored; a line with a missing or
   unparsable first or second token is an error.
   */
  function LoadData(lines: seq<seq<string>>): (r: Option<(seq<nat>, seq<nat>)>)
    ensures r.Some? ==> |r.value.0| == |lines| && |r.value.1| == |lines|
  {
    if |lines| == 0 then Some(([], []))
    else
      var first := ParseLine(lines[0]);
      var rest := LoadData(lines[1..]);
      if first.None? || rest.None? then None
      else Some(([first.value.0] + rest.value.0, [first.value.1] + rest.value.1))
  }

  /** The load succeeds exactly when every line parses, and the columns hold the parsed pairs in order. */
  lemma LoadDataLines(lines: seq<seq<string>>)
    ensures LoadData(lines).Some? <==> forall i :: 0 <= i < |lines| ==> ParseLine(lines[i]).Some?
    ensures LoadData(lines).Some? ==> forall i :: 0 <= i < |lines| ==>
      ParseLine(lines[i]) == Some((LoadData(lines).value.0[i], LoadData(lines).value.1[i]))
  {
    LoadDataSucceeds(lines);
    if LoadData(lines).Some? {
      LoadDataColumns(lines);
    }
  }

  /** The load succeeds exactly when every line parses. */
  lemma {:induction false} LoadDataSucceeds(lines: seq<seq<string>>)
    ensures LoadData(lines).Some? <==> forall i :: 0 <= i < |lines| ==> ParseLine(lines[i]).Some?
    decreases |lines|
  {
    if |lines| > 0 {
      var tail := lines[1..];
      LoadDataSucceeds(tail);
      assert forall i :: 1 <= i < |lines| ==> lines[i] == tail[i - 1];
      if LoadData(lines).None? && ParseLine(lines[0]).Some? {
        assert exists i :: 0 <= i < |tail| && ParseLine(tail[i]).None?;
      }
    }
  }

  /** After a successful load, entry `i` of the columns is the pair line `i` parses to. */
  lemma {:induction false} LoadDataColumns(lines: seq<seq<string>>)
    requires LoadData(lines).Some?
    ensures forall i :: 0 <= i < |lines| ==>
      ParseLine(lines[i]) == Some((LoadData(lines).value.0[i], LoadData(lines).value.1[i]))
    decreases |lines|
  {
    if |lines| > 0 {
      var tail := lines[1..];
      var r := LoadData(lines);
      var rest := LoadData(tail).value;
      LoadDataColumns(tail);
      assert forall i :: 1 <= i < |lines| ==> lines[i] == tail[i - 1];
      assert forall i :: 1 <= i < |lines| ==> r.value.0[i] == rest.0[i - 1] && r.value.1[i] == rest.1[i - 1];
    }
  }

  /** A load succeeds exactly when both ids of every line parse, and then the columns hold them. */
  lemma LoadDataIds(lines: seq<seq<string>>)
    ensures LoadData(lines).Some? <==> forall i :: 0 <= i < |lines| ==> LineOk(lines[i])
    ensures LoadData(lines).Some? ==> forall i :: 0 <= i < |lines| ==>
      ParseU64(lines[i][0]) == Some(LoadData(lines).value.0[i])
      && ParseU64(lines[i][1]) == Some(LoadData(lines).value.1[i])
  {
    LoadDataLines(lines);
    forall i | 0 <= i < |lines|
      ensures ParseLine(lines[i]).Some? <==> LineOk(lines[i])
    {
    }
  }

  // ---------------------------------------------------------------- sorting

  predicate Sorted(s: seq<int>)
  {
    forall i, j :: 0 <= i < j < |s| ==> s[i] <= s[j]
  }

  lemma SortedCons(x: int, r: seq<int>)
    requires Sorted(r)
    requires forall i :: 0 <= i < |r| ==> x <= r[i]
    ensures Sorted([x] + r)
  {
    forall i, j | 0 <= i < j < |[x] + r|
      ensures ([x] + r)[i] <= ([x] + r)[j]
    {
      if i > 0 {
        assert ([x] + r)[i] == r[i - 1] && ([x] + r)[j] == r[j - 1];
      }
    }
  }

  /** Everything taken from the tail of a sorted list, or larger than its head, is at least the head. */
  lemma HeadBelowRest(s: seq<int>, r: seq<int>, x: int)
    requires Sorted(s) && |s| > 0 && s[0] < x
    requires forall i :: 0 <= i < |r| ==> r[i] == x || r[i] in s[1..]
    ensures forall i :: 0 <= i < |r| ==> s[0] <= r[i]
  {
    forall i | 0 <= i < |r|
      ensures s[0] <= r[i]
    {
      if r[i] != x {
        var j :| 0 <= j < |s[1..]| && s[1..][j] == r[i];
        assert s[j + 1] == r[i];
      }
    }
  }

  function Insert(x: int, s: seq<int>): (r: seq<int>)
    requires Sorted(s)
    ensures Sorted(r)
    ensures multiset(r) == multiset(s) + multiset{x}
    ensures |r| == |s| + 1
    ensures forall i :: 0 <= i < |r| ==> r[i] == x || r[i] in s
  {
    if |s| == 0 then [x]
    else if x <= s[0] then
      SortedCons(x, s);
      [x] + s
    else
      assert s == [s[0]] + s[1..];
      var r' := Insert(x, s[1..]);
      HeadBelowRest(s, r', x);
      SortedCons(s[0], r');
      [s[0]] + r'
  }

  /** Insertion sort, standing in for Rust's `Vec::sort` (only the sorted permutation matters). */
  function Sort(s: seq<int>): (r: seq<int>)
    ensures Sorted(r)
    ensures multiset(r) == multiset(s)
    ensures |r| == |s|
  {
    if |s| == 0 then []
    else
      assert s == [s[0]] + s[1..];
      Insert(s[0], Sort(s[1..]))
  }

  /** There is only one sorted arrangement of a multiset. */
  lemma {:induction false} SortedUnique(a: seq<int>, b: seq<int>)
    requires Sorted(a) && Sorted(b)
    requires multiset(a) == multiset(b)
    ensures a == b
    decreases |a|
  {
    assert |a| == |multiset(a)| == |multiset(b)| == |b|;
    if |a| > 0 {
      assert a[0] in multiset(b);
      assert b[0] in multiset(a);
      var i :| 0 <= i < |b| && b[i] == a[0];
      var j :| 0 <= j < |a| && a[j] == b[0];
      assert a[0] == b[0];
      assert a == [a[0]] + a[1..];
      assert b == [b[0]] + b[1..];
      MultisetCons(a);
      MultisetCons(b);
      MultisetCancel(a[0], multiset(a[1..]), multiset(b[1..]));
      SortedUnique(a[1..], b[1..]);
    }
  }

  /** `Sort(s)` is `t` whenever `t` is a sorted permutation of `s`. */
  lemma SortIs(s: seq<int>, t: seq<int>)
    requires Sorted(t) && multiset(s) == multiset(t)
    ensures Sort(s) == t
  {
    SortedUnique(Sort(s), t);
  }

  lemma SortOfPermutation(a: seq<int>, b: seq<int>)
    requires multiset(a) == multiset(b)
    ensures Sort(a) == Sort(b)
  {
    SortedUnique(Sort(a), Sort(b));
  }

  // ---------------------------------------------------------------- part 1

  function AbsDiff(a: int, b: int): nat
  {
    if a >= b then a - b else b - a
  }

  /** Sum of the distances of the pairs of `zip(a, b)` (the longer list's tail is dropped). */
  function PairedDistance(a: seq<int>, b: seq<int>): nat
  {
    if |a| == 0 || |b| == 0 then 0 else AbsDiff(a[0], b[0]) + PairedDistance(a[1..], b[1..])
  }

  /**
   Part 1 over the parsed columns. For columns of equal length the answer is 0
   exactly when one column is a permutation of the other.
   */
  function SumDifferences(a: seq<nat>, b: seq<nat>): (d: nat)
    ensures |a| == |b| ==> (d == 0 <==> multiset(a) == multiset(b))
  {
    var d := PairedDistance(Sort(a), Sort(b));
    if |a| != |b| then d
    else if multiset(a) == multiset(b) then
      SortOfPermutation(a, b);
      PairedDistanceZero(Sort(a), Sort(b));
      d
    else
      PairedDistanceZero(Sort(a), Sort(b));
      d
  }

  lemma {:induction false} PairedDistanceSymmetric(a: seq<int>, b: seq<int>)
    ensures PairedDistance(a, b) == PairedDistance(b, a)
    decreases |a|
  {
    if |a| > 0 && |b| > 0 {
      PairedDistanceSymmetric(a[1..], b[1..]);
    }
  }

  /** Equally long lists are at distance zero exactly when they are equal. */
  lemma {:induction false} PairedDistanceZero(a: seq<int>, b: seq<int>)
    requires |a| == |b|
    ensures PairedDistance(a, b) == 0 <==> a == b
    decreases |a|
  {
    if |a| > 0 {
      PairedDistanceZero(a[1..], b[1..]);
      assert a == [a[0]] + a[1..];
      assert b == [b[0]] + b[1..];
    }
  }

  /** Swapping the two columns does not change the part 1 answer. */
  lemma SumDifferencesSymmetric(a: seq<nat>, b: seq<nat>)
    ensures SumDifferences(a, b) == SumDifferences(b, a)
  {
    PairedDistanceSymmetric(Sort(a), Sort(b));
  }

  /** Part 1 depends only on the multisets of the two columns, not on their order. */
  lemma SumDifferencesOrderFree(a: seq<nat>, a': seq<nat>, b: seq<nat>, b': seq<nat>)
    requires multiset(a) == multiset(a') && multiset(b) == multiset(b')
    ensures SumDifferences(a, b) == SumDifferences(a', b')
  {
    SortOfPermutation(a, a');
    SortOfPermutation(b, b');
  }

  // ---------------------------------------------------------------- part 2

  /**
   Part 2: every left id times the number of times it occurs in the right
   column. The score is 0 exactly when no nonzero left id occurs on the right.
   */
  function SimilarityScore(a: seq<nat>, b: seq<nat>): (score: nat)
    ensures score == 0 <==> forall i :: 0 <= i < |a| ==> a[i] == 0 || a[i] !in b
    decreases |a|
  {
    if |a| == 0 then 0
    else
      CountIsMultiplicity(b, a[0]);
      var rest := SimilarityScore(a[1..], b);
      assert forall i :: 1 <= i < |a| ==> a[i] == a[1..][i - 1];
      a[0] * Count(b, a[0]) + rest
  }

  lemma {:induction false} SimilarityAppend(a: seq<nat>, a': seq<nat>, b: seq<nat>)
    ensures SimilarityScore(a + a', b) == SimilarityScore(a, b) + SimilarityScore(a', b)
    decreases |a|
  {
    if |a| == 0 {
      assert a + a' == a';
    } else {
      assert (a + a')[1..] == a[1..] + a';
      SimilarityAppend(a[1..], a', b);
    }
  }

  /** The right column only matters through its multiset. */
  lemma {:induction false} SimilarityRightOrderFree(a: seq<nat>, b: seq<nat>, b': seq<nat>)
    requires multiset(b) == multiset(b')
    ensures SimilarityScore(a, b) == SimilarityScore(a, b')
    decreases |a|
  {
    if |a| > 0 {
      CountIsMultiplicity(b, a[0]);
      CountIsMultiplicity(b', a[0]);
      SimilarityRightOrderFree(a[1..], b, b');
    }
  }

  /** The left column only matters through its multiset. */
  lemma {:induction false} SimilarityLeftOrderFree(a: seq<nat>, a': seq<nat>, b: seq<nat>)
    requires multiset(a) == multiset(a')
    ensures SimilarityScore(a, b) == SimilarityScore(a', b)
    decreases |a|
  {
    assert |a| == |multiset(a)| == |multiset(a')| == |a'|;
    if |a| > 0 {
      assert a == [a[0]] + a[1..];
      assert a[0] in multiset(a');
      var k :| 0 <= k < |a'| && a'[k] == a[0];
      var rest := a'[..k] + a'[k + 1..];
      assert a' == a'[..k] + [a'[k]] + a'[k + 1..];
      assert multiset(a') == multiset(rest) + multiset{a[0]};
      MultisetCons(a);
      MultisetCancel(a[0], multiset(a[1..]), multiset(rest));
      SimilarityLeftOrderFree(a[1..], rest, b);
      SimilarityAppend(a'[..k] + [a'[k]], a'[k + 1..], b);
      SimilarityAppend(a'[..k], [a'[k]], b);
      SimilarityAppend(a'[..k], a'[k + 1..], b);
    }
  }

  /** Part 2 depends only on the multisets of the two columns. */
  lemma SimilarityOrderFree(a: seq<nat>, a': seq<nat>, b: seq<nat>, b': seq<nat>)
    requires multiset(a) == multiset(a') && multiset(b) == multiset(b')
    ensures SimilarityScore(a, b) == SimilarityScore(a', b')
  {
    SimilarityLeftOrderFree(a, a', b);
    SimilarityRightOrderFree(a', b, b');
  }

  /** A list whose neighbours are in order is sorted. */
  lemma {:induction false} SortedByNeighbours(s: seq<int>)
    requires forall i :: 0 <= i < |s| - 1 ==> s[i] <= s[i + 1]
    ensures Sorted(s)
    decreases |s|
  {
    if |s| > 1 {
      SortedByNeighbours(s[1..]);
      assert forall i :: 0 <= i < |s[1..]| ==> s[1..][i] == s[i + 1];
      assert s[0] <= s[1..][0];
      assert forall i :: 0 <= i < |s[1..]| ==> s[1..][0] <= s[1..][i];
      SortedCons(s[0], s[1..]);
      assert s == [s[0]] + s[1..];
    }
  }

  /** A list in neighbour order with the same elements is what `Sort` returns. */
  lemma SortedCertificate(s: seq<int>, t: seq<int>)
    requires forall i :: 0 <= i < |t| - 1 ==> t[i] <= t[i + 1]
    requires multiset(s) == multiset(t)
    ensures Sort(s) == t
  {
    SortedByNeighbours(t);
    SortIs(s, t);
  }

  lemma ExampleLeftPermutation(left: seq<nat>, sorted: seq<int>)
    requires left == [3, 4, 2, 1, 3, 3] && sorted == [1, 2, 3, 3, 3, 4]
    ensures multiset(left) == multiset(sorted)
  {
    assert multiset(left) == multiset{3, 4, 2, 1, 3, 3};
    assert multiset(sorted) == multiset{1, 2, 3, 3, 3, 4};
  }

  lemma ExampleRightPermutation(right: seq<nat>, sorted: seq<int>)
    requires right == [4, 3, 5, 3, 9, 3] && sorted == [3, 3, 3, 4, 5, 9]
    ensures multiset(right) == multiset(sorted)
  {
    assert multiset(right) == multiset{4, 3, 5, 3, 9, 3};
    assert multiset(sorted) == multiset{3, 3, 3, 4, 5, 9};
  }

  lemma ExampleSortedLeft(left: seq<nat>, sorted: seq<int>)
    requires left == [3, 4, 2, 1, 3, 3] && sorted == [1, 2, 3, 3, 3, 4]
    ensures Sort(left) == sorted
  {
    ExampleLeftPermutation(left, sorted);
    SortedCertificate(left, sorted);
  }

  lemma ExampleSortedRight(right: seq<nat>, sorted: seq<int>)
    requires right == [4, 3, 5, 3, 9, 3] && sorted == [3, 3, 3, 4, 5, 9]
    ensures Sort(right) == sorted
  {
    ExampleRightPermutation(right, sorted);
    SortedCertificate(right, sorted);
  }

  /** The worked example, part 1: 11. */
  lemma ExampleDistance(a: seq<int>, b: seq<int>)
    requires a == [1, 2, 3, 3, 3, 4] && b == [3, 3, 3, 4, 5, 9]
    ensures PairedDistance(a, b) == 11
  {
    assert PairedDistance(a[5..], b[5..]) == 5;
    assert PairedDistance(a[4..], b[4..]) == 7;
    assert PairedDistance(a[3..], b[3..]) == 8;
    assert PairedDistance(a[2..], b[2..]) == 8;
    assert PairedDistance(a[1..], b[1..]) == 9;
  }

  lemma ExamplePart1(left: seq<nat>, right: seq<nat>)
    requires left == [3, 4, 2, 1, 3, 3] && right == [4, 3, 5, 3, 9, 3]
    ensures SumDifferences(left, right) == 11
  {
    var sortedLeft, sortedRight: seq<int> := [1, 2, 3, 3, 3, 4], [3, 3, 3, 4, 5, 9];
    ExampleSortedLeft(left, sortedLeft);
    ExampleSortedRight(right, sortedRight);
    ExampleDistance(sortedLeft, sortedRight);
  }

  /** The worked example, part 2: 31. */
  lemma ExampleCounts(right: seq<nat>)
    requires right == [4, 3, 5, 3, 9, 3]
    ensures Count(right, 1) == 0 && Count(right, 2) == 0 && Count(right, 3) == 3 && Count(right, 4) == 1
  {
    CountIsMultiplicity(right, 1);
    CountIsMultiplicity(right, 2);
    CountIsMultiplicity(right, 3);
    CountIsMultiplicity(right, 4);
    assert multiset(right) == multiset{4, 3, 5, 3, 9, 3};
  }

  lemma ExamplePart2(left: seq<nat>, right: seq<nat>)
    requires left == [3, 4, 2, 1, 3, 3] && right == [4, 3, 5, 3, 9, 3]
    ensures SimilarityScore(left, right) == 31
  {
    ExampleCounts(right);
    assert SimilarityScore(left[5..], right) == 9;
    assert SimilarityScore(left[4..], right) == 18;
    assert SimilarityScore(left[3..], right) == 18;
    assert SimilarityScore(left[2..], right) == 18;
    assert SimilarityScore(left[1..], right) == 22;
  }
}
