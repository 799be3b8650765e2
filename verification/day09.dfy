/**
 Day 9: a disk map of alternating file and gap lengths, one digit each.
 Part 1 moves single blocks from the end of the disk into the leftmost gaps;
 part 2 moves whole files, highest id first, into the leftmost gap that can
 hold them. The answer is a checksum of the compacted disk.
 */
module Day09 {
  import opened Common
  import opened Decimal

  // ---------------------------------------------------------------- loading

  /** `n` copies of `v`. */
  function Repeat(v: int, n: nat): (r: seq<int>)
    ensures |r| == n && forall k :: 0 <= k < n ==> r[k] == v
  {
    if n == 0 then [] else [v] + Repeat(v, n - 1)
  }

  function DigitSum(s: string): nat
    requires AllDigits(s)
  {
    if |s| == 0 then 0 else DigitValue(s[0]) + DigitSum(s[1..])
  }

  /**
   The block-per-entry layout from position `i` on, `id` being the next file id.
   Even positions are files, odd positions gaps (written `-1`).
   */
  function NaiveFrom(data: string, i: nat, id: nat): (r: seq<int>)
    requires AllDigits(data) && i <= |data|
    ensures |r| == DigitSum(data[i..])
    decreases |data| - i
  {
    if i == |data| then []
    else
      assert data[i..][1..] == data[i + 1..];
      if i % 2 == 0 then Repeat(id, DigitValue(data[i])) + NaiveFrom(data, i + 1, id + 1)
      else Repeat(-1, DigitValue(data[i])) + NaiveFrom(data, i + 1, id)
  }

  /** One entry per block; the total length is the sum of the digits. */
  function NaiveLoad(data: string): (r: seq<int>)
    requires AllDigits(data)
    ensures |r| == DigitSum(data)
  {
    NaiveFrom(data, 0, 0)
  }

  datatype Element = File(id: nat, length: nat) | Gap(length: nat)

  /** What the digit at position `p` denotes: file `p / 2` at even positions, a gap at odd ones. */
  function Entry(data: string, p: nat): Element
    requires AllDigits(data) && p < |data|
  {
    if p % 2 == 0 then File(p / 2, DigitValue(data[p])) else Gap(DigitValue(data[p]))
  }

  function SmartFrom(data: string, i: nat, id: nat): (r: seq<Element>)
    requires AllDigits(data) && i <= |data| && id == (i + 1) / 2
    ensures |r| == |data| - i
    ensures forall k :: 0 <= k < |r| ==> r[k] == Entry(data, i + k)
    decreases |data| - i
  {
    if i == |data| then []
    else if i % 2 == 0 then [File(id, DigitValue(data[i]))] + SmartFrom(data, i + 1, id + 1)
    else [Gap(DigitValue(data[i]))] + SmartFrom(data, i + 1, id)
  }

  /** One element per digit: file ids count up 0, 1, 2, ... at the even positions. */
  function SmartLoad(data: string): (r: seq<Element>)
    requires AllDigits(data)
    ensures |r| == |data|
    ensures forall k :: 0 <= k < |r| ==> r[k] == Entry(data, k)
  {
    SmartFrom(data, 0, 0)
  }

  function Blocks(e: Element): seq<int>
  {
    match e
    case File(id, length) => Repeat(id, length)
    case Gap(length) => Repeat(-1, length)
  }

  function TotalLength(disk: seq<Element>): nat
  {
    if |disk| == 0 then 0 else disk[0].length + TotalLength(disk[1..])
  }

  /** Expands each element into its blocks. */
  function NaiveRepr(disk: seq<Element>): (r: seq<int>)
    ensures |r| == TotalLength(disk)
  {
    if |disk| == 0 then [] else Blocks(disk[0]) + NaiveRepr(disk[1..])
  }

  lemma NaiveReprCons(e: Element, rest: seq<Element>)
    ensures NaiveRepr([e] + rest) == Blocks(e) + NaiveRepr(rest)
  {
    assert ([e] + rest)[1..] == rest;
  }

  /** Expanding a joined element list is joining the expansions. */
  lemma {:induction false} NaiveReprAppend(a: seq<Element>, b: seq<Element>)
    ensures NaiveRepr(a + b) == NaiveRepr(a) + NaiveRepr(b)
    decreases |a|
  {
    if |a| == 0 {
      assert a + b == b;
    } else {
      assert (a + b)[1..] == a[1..] + b;
      NaiveReprAppend(a[1..], b);
    }
  }

  /** The file id that follows position `i` when `id` is the id for position `i`. */
  function NextId(i: nat, id: nat): nat
  {
    if i % 2 == 0 then id + 1 else id
  }

  lemma SmartFromHead(data: string, i: nat, id: nat)
    requires AllDigits(data) && i < |data| && id == (i + 1) / 2
    ensures SmartFrom(data, i, id) == [Entry(data, i)] + SmartFrom(data, i + 1, NextId(i, id))
  {
  }

  lemma NaiveFromHead(data: string, i: nat, id: nat)
    requires AllDigits(data) && i < |data| && id == (i + 1) / 2
    ensures NaiveFrom(data, i, id) == Blocks(Entry(data, i)) + NaiveFrom(data, i + 1, NextId(i, id))
  {
    var d := DigitValue(data[i]);
    if i % 2 == 0 {
      assert Blocks(Entry(data, i)) == Repeat(id, d);
    } else {
      assert Blocks(Entry(data, i)) == Repeat(-1, d);
    }
  }

  lemma NaiveReprStep(data: string, i: nat, id: nat)
    requires AllDigits(data) && i < |data| && id == (i + 1) / 2
    requires NaiveRepr(SmartFrom(data, i + 1, NextId(i, id))) == NaiveFrom(data, i + 1, NextId(i, id))
    ensures NaiveRepr(SmartFrom(data, i, id)) == NaiveFrom(data, i, id)
  {
    SmartFromHead(data, i, id);
    NaiveFromHead(data, i, id);
    NaiveReprCons(Entry(data, i), SmartFrom(data, i + 1, NextId(i, id)));
  }

  lemma {:induction false} NaiveReprFrom(data: string, i: nat, id: nat)
    requires AllDigits(data) && i <= |data| && id == (i + 1) / 2
    ensures NaiveRepr(SmartFrom(data, i, id)) == NaiveFrom(data, i, id)
    decreases |data| - i
  {
    if i == |data| {
      assert SmartFrom(data, i, id) == [];
      assert NaiveFrom(data, i, id) == [];
    } else {
      NaiveReprFrom(data, i + 1, NextId(i, id));
      NaiveReprStep(data, i, id);
    }
  }

  /** The two loaders agree: expanding the element list gives the block list. */
  lemma NaiveReprLoad(data: string)
    requires AllDigits(data)
    ensures NaiveRepr(SmartLoad(data)) == NaiveLoad(data)
  {
    NaiveReprFrom(data, 0, 0);
  }

  // ---------------------------------------------------------------- part 1

  /** Swapping two blocks keeps the blocks. */
  lemma SwapKeepsMultiset(s: seq<int>, i: nat, j: nat)
    requires i < j < |s|
    ensures multiset(s[i := s[j]][j := s[i]]) == multiset(s)
  {
    var t := s[i := s[j]][j := s[i]];
    var front, middle, back := s[..i], s[i + 1..j], s[j + 1..];
    assert s == front + [s[i]] + middle + [s[j]] + back;
    assert t == front + [s[j]] + middle + [s[i]] + back;
  }

  /** The first `n` blocks are file blocks. */
  predicate FilesBelow(r: seq<int>, n: nat)
  {
    forall k :: 0 <= k < n && k < |r| ==> r[k] != -1
  }

  /** Every block after position `n` is a gap. */
  predicate GapsAbove(r: seq<int>, n: nat)
  {
    forall k :: n < k < |r| ==> r[k] == -1
  }

  /** The inner loop of part 1: walk `filler` left past gap blocks to the last file block. */
  method SkipTrailingGaps(r: seq<int>, filler: nat, ghost file: nat) returns (f: nat)
    requires file <= filler < |r| && r[file] != -1
    requires GapsAbove(r, filler)
    ensures file <= f <= filler && r[f] != -1
    ensures GapsAbove(r, f)
  {
    f := filler;
    while r[f] == -1
      invariant file <= f <= filler
      invariant GapsAbove(r, f)
      decreases f
    {
      f := f - 1;
    }
  }

  /** Number of file blocks (blocks other than `-1`). */
  function FileCount(s: seq<int>): (n: nat)
    ensures n <= |s|
  {
    if |s| == 0 then 0 else (if s[0] != -1 then 1 else 0) + FileCount(s[1..])
  }

  lemma {:induction false} FileCountAppend(a: seq<int>, b: seq<int>)
    ensures FileCount(a + b) == FileCount(a) + FileCount(b)
    decreases |a|
  {
    if |a| > 0 {
      assert (a + b)[0] == a[0] && (a + b)[1..] == a[1..] + b;
      FileCountAppend(a[1..], b);
    } else {
      assert a + b == b;
    }
  }

  predicate AllFiles(s: seq<int>)
  {
    forall k :: 0 <= k < |s| ==> s[k] != -1
  }

  predicate AllGaps(s: seq<int>)
  {
    forall k :: 0 <= k < |s| ==> s[k] == -1
  }

  lemma {:induction false} FileCountExtremes(s: seq<int>)
    ensures AllFiles(s) ==> FileCount(s) == |s|
    ensures AllGaps(s) ==> FileCount(s) == 0
    decreases |s|
  {
    if |s| > 0 {
      FileCountExtremes(s[1..]);
    }
  }

  /** The gaps of `s` receive `donors` in order, left to right; file blocks stay where they are. */
  function Fill(s: seq<int>, donors: seq<int>): (r: seq<int>)
    ensures |r| == |s|
  {
    if |s| == 0 then []
    else if s[0] == -1 && |donors| > 0 then [donors[0]] + Fill(s[1..], donors[1..])
    else [s[0]] + Fill(s[1..], donors)
  }

  /** The file blocks of `t`, the rightmost first. */
  function FromRight(t: seq<int>): (r: seq<int>)
    ensures |r| == FileCount(t)
  {
    if |t| == 0 then []
    else
      FileCountAppend(t[..|t| - 1], [t[|t| - 1]]);
      assert t[..|t| - 1] + [t[|t| - 1]] == t;
      (if t[|t| - 1] != -1 then [t[|t| - 1]] else []) + FromRight(t[..|t| - 1])
  }

  /**
   What part 1 should produce, stated without the two cursors: with `F` file
   blocks, the first `F` positions keep their file blocks and their gaps are
   filled, left to right, by the file blocks beyond position `F` taken from
   the right end; the last positions are all gaps.
   */
  function Compacted(disk: seq<int>): (r: seq<int>)
    ensures |r| == |disk|
  {
    var f := FileCount(disk);
    Fill(disk[..f], FromRight(disk[f..])) + Repeat(-1, |disk| - f)
  }

  /** A run of file blocks passes through `Fill` untouched and uses no donor. */
  lemma {:induction false} FillFilesPrefix(p: seq<int>, q: seq<int>, donors: seq<int>)
    requires AllFiles(p)
    ensures Fill(p + q, donors) == p + Fill(q, donors)
    decreases |p|
  {
    if |p| > 0 {
      assert (p + q)[0] == p[0] != -1 && (p + q)[1..] == p[1..] + q;
      assert AllFiles(p[1..]) by {
        forall k | 0 <= k < |p[1..]| ensures p[1..][k] != -1 {
          assert p[1..][k] == p[k + 1];
        }
      }
      FillFilesPrefix(p[1..], q, donors);
    } else {
      assert p + q == q;
    }
  }

  /** The rightmost file block heads the donors; taking it away leaves the rest. */
  lemma {:induction false} FromRightLast(t: seq<int>, k: nat)
    requires k < |t| && t[k] != -1
    requires forall j :: k < j < |t| ==> t[j] == -1
    ensures FromRight(t) == [t[k]] + FromRight(t[k := -1])
    decreases |t|
  {
    var n := |t| - 1;
    var u := t[k := -1];
    assert u[n] == -1;
    assert FromRight(u) == FromRight(u[..n]);
    if k == n {
      assert u[..n] == t[..n];
    } else {
      assert u[..n] == t[..n][k := -1];
      assert FromRight(t) == FromRight(t[..n]);
      FromRightLast(t[..n], k);
    }
  }

  /** In a disk whose gaps already follow its files, the reference changes nothing. */
  lemma CompactedSorted(r: seq<int>, f: nat)
    requires f <= |r| && AllFiles(r[..f]) && AllGaps(r[f..])
    ensures Compacted(r) == r
  {
    assert r == r[..f] + r[f..];
    FileCountAppend(r[..f], r[f..]);
    FileCountExtremes(r[..f]);
    FileCountExtremes(r[f..]);
    FillFilesPrefix(r[..f], [], FromRight(r[f..]));
    assert r[..f] + [] == r[..f];
  }

  /** Counting around the leftmost gap `g` and the rightmost file block `f`: `g < F <= f`. */
  lemma SwapBounds(r: seq<int>, g: nat, f: nat)
    requires g < f < |r| && r[g] == -1 && r[f] != -1
    requires AllFiles(r[..g]) && forall k :: f < k < |r| ==> r[k] == -1
    ensures g < FileCount(r) <= f
    ensures FileCount(r[g := r[f]][f := r[g]]) == FileCount(r)
  {
    var front, middle, back := r[..g], r[g + 1..f], r[f + 1..];
    assert r == front + ([r[g]] + middle + [r[f]] + back);
    assert r[g := r[f]][f := r[g]] == front + ([r[f]] + middle + [r[g]] + back);
    assert AllGaps(back);
    FileCountExtremes(front);
    FileCountExtremes(back);
    FileCountAppend(front, [r[g]] + middle + [r[f]] + back);
    FileCountAppend([r[g]] + middle + [r[f]], back);
    FileCountAppend([r[g]] + middle, [r[f]]);
    FileCountAppend([r[g]], middle);
    FileCountAppend(front, [r[f]] + middle + [r[g]] + back);
    FileCountAppend([r[f]] + middle + [r[g]], back);
    FileCountAppend([r[f]] + middle, [r[g]]);
    FileCountAppend([r[f]], middle);
  }

  /** Filling a gap after a run of files with the first donor is the same as writing that donor there. */
  lemma FillAtGap(front: seq<int>, x: int, rest: seq<int>, tail: seq<int>)
    requires AllFiles(front) && x != -1
    ensures Fill(front + ([-1] + rest), [x] + tail) == Fill(front + ([x] + rest), tail)
  {
    FillFilesPrefix(front, [-1] + rest, [x] + tail);
    FillFilesPrefix(front, [x] + rest, tail);
    assert ([-1] + rest)[1..] == rest && ([x] + tail)[1..] == tail;
    assert ([x] + rest)[1..] == rest;
  }

  /** One step of part 1 leaves the reference result unchanged. */
  lemma CompactedSwap(r: seq<int>, g: nat, f: nat)
    requires g < f < |r| && r[g] == -1 && r[f] != -1
    requires AllFiles(r[..g]) && forall k :: f < k < |r| ==> r[k] == -1
    ensures Compacted(r[g := r[f]][f := r[g]]) == Compacted(r)
  {
    var s := r[g := r[f]][f := r[g]];
    SwapBounds(r, g, f);
    var n := FileCount(r);
    DonorsAfterSwap(r, s, g, f, n);
    FrontAfterSwap(r, s, g, f, n);
    FillAtGap(r[..g], r[f], r[g + 1..n], FromRight(s[n..]));
  }

  lemma DonorsAfterSwap(r: seq<int>, s: seq<int>, g: nat, f: nat, n: nat)
    requires g < n <= f < |r| && r[f] != -1 && s == r[g := r[f]][f := r[g]] && r[g] == -1
    requires forall k :: f < k < |r| ==> r[k] == -1
    ensures FromRight(r[n..]) == [r[f]] + FromRight(s[n..])
  {
    FromRightLast(r[n..], f - n);
    assert r[n..][f - n := -1] == s[n..];
  }

  lemma FrontAfterSwap(r: seq<int>, s: seq<int>, g: nat, f: nat, n: nat)
    requires g < n <= f < |r| && s == r[g := r[f]][f := r[g]] && r[g] == -1
    ensures r[..n] == r[..g] + ([-1] + r[g + 1..n])
    ensures s[..n] == r[..g] + ([r[f]] + r[g + 1..n])
  {
  }

  /** When the two cursors have crossed, the disk is already its own reference result. */
  lemma CursorsCrossed(r: seq<int>, gap: nat, filler: nat)
    requires filler < gap <= |r| && FilesBelow(r, gap) && GapsAbove(r, filler)
    ensures Compacted(r) == r
    ensures forall i, j :: 0 <= i < j < |r| && r[i] == -1 ==> r[j] == -1
  {
    assert AllFiles(r[..filler + 1]) && AllGaps(r[filler + 1..]);
    CompactedSorted(r, filler + 1);
  }

  /** The disk map "111": file 0, a one-block gap, file 1; part 1 moves file 1 into the gap. */
  lemma SmallCompaction()
    ensures Compacted([0, -1, 1]) == [0, 1, -1]
  {
    var d := [0, -1, 1];
    assert d[1..] == [-1, 1] && d[1..][1..] == [1] && [1][1..] == [];
    assert FileCount(d) == 2;
    assert d[..2] == [0, -1] && d[2..] == [1];
    assert [1][..0] == [];
    assert FromRight([1]) == [1];
    assert [0, -1][1..] == [-1] && [-1][1..] == [];
    assert Fill([0, -1], [1]) == [0, 1];
  }

  /** The step lemma in the form the loop of part 1 states its invariants. */
  lemma CursorsSwap(r: seq<int>, gap: nat, filler: nat)
    requires gap < filler < |r| && r[gap] == -1 && r[filler] != -1
    requires FilesBelow(r, gap) && GapsAbove(r, filler)
    ensures var s := r[gap := r[filler]][filler := r[gap]];
      && |s| == |r| && multiset(s) == multiset(r) && s[gap] != -1 && s[filler] == -1
      && FilesBelow(s, gap) && GapsAbove(s, filler)
      && Compacted(s) == Compacted(r)
  {
    assert AllFiles(r[..gap]);
    CompactedSwap(r, gap, filler);
    SwapKeepsMultiset(r, gap, filler);
  }

  /**
   Swaps the leftmost gap block with the rightmost file block until every gap
   is to the right of every file. The source indexes out of bounds without a
   gap and underflows without a file, so both are required.
   */
  method NaiveCompact(disk: seq<int>) returns (r: seq<int>)
    requires -1 in disk
    requires exists v :: v in disk && v != -1
    ensures multiset(r) == multiset(disk)
    ensures forall i, j :: 0 <= i < j < |r| && r[i] == -1 ==> r[j] == -1
    ensures r == Compacted(disk)
  {
    r := disk;
    var gap := 0;
    var filler := |r| - 1;
    ghost var hole :| 0 <= hole < |r| && r[hole] == -1;
    ghost var v :| v in disk && v != -1;
    ghost var file :| 0 <= file < |r| && r[file] == v;
    while true
      invariant |r| == |disk| && multiset(r) == multiset(disk)
      invariant 0 <= gap <= hole < |r| && r[hole] == -1
      invariant 0 <= file <= filler < |r| && r[file] != -1
      invariant FilesBelow(r, gap) && GapsAbove(r, filler)
      invariant Compacted(r) == Compacted(disk)
      decreases |r| - gap, if r[gap] == -1 then 1 else 0
    {
      if r[gap] == -1 {
        filler := SkipTrailingGaps(r, filler, file);
        if gap >= filler {
          CursorsCrossed(r, gap, filler);
          break;
        }
        CursorsSwap(r, gap, filler);
        r := r[gap := r[filler]][filler := r[gap]];
        hole, file := filler, gap;
      } else {
        gap := gap + 1;
      }
    }
  }

  // ---------------------------------------------------------------- checksum

  function Term(i: nat, id: int): nat
  {
    if id >= 0 then i * id else 0
  }

  /** The checksum of blocks numbered from `start`: 0 exactly when every block past position 0 is id 0 or a gap. */
  function ChecksumFrom(disk: seq<int>, start: nat): (r: nat)
    ensures r == 0 <==> forall i :: 0 <= i < |disk| && start + i > 0 ==> disk[i] <= 0
    decreases |disk|
  {
    if |disk| == 0 then 0
    else
      var rest := ChecksumFrom(disk[1..], start + 1);
      assert forall i :: 1 <= i < |disk| ==> disk[i] == disk[1..][i - 1];
      Term(start, disk[0]) + rest
  }

  /**
   Sum of position times id over the file blocks. The checksum is 0 exactly
   when no block after the first holds a file other than file 0.
   */
  function Checksum(disk: seq<int>): (c: nat)
    ensures c == 0 <==> forall i :: 1 <= i < |disk| ==> disk[i] <= 0
  {
    ChecksumFrom(disk, 0)
  }

  lemma {:induction false} ChecksumFromSet(disk: seq<int>, start: nat, i: nat, v: int)
    requires i < |disk|
    ensures ChecksumFrom(disk[i := v], start) == ChecksumFrom(disk, start) - Term(start + i, disk[i]) + Term(start + i, v)
    decreases |disk|
  {
    if i == 0 {
      assert disk[i := v][1..] == disk[1..];
    } else {
      assert disk[i := v][1..] == disk[1..][i - 1 := v];
      ChecksumFromSet(disk[1..], start + 1, i - 1, v);
    }
  }

  /**
   Each block contributes its position times its id, independently of the
   others, and a gap contributes nothing.
   */
  lemma ChecksumSet(disk: seq<int>, i: nat, v: int)
    requires i < |disk|
    ensures Checksum(disk[i := v]) == Checksum(disk) - Term(i, disk[i]) + Term(i, v)
    ensures disk[i] < 0 && v < 0 ==> Checksum(disk[i := v]) == Checksum(disk)
  {
    ChecksumFromSet(disk, 0, i, v);
  }

  /** The checksum of a join: the second part's blocks count from where the first part ends. */
  lemma {:induction false} ChecksumFromAppend(a: seq<int>, b: seq<int>, start: nat)
    ensures ChecksumFrom(a + b, start) == ChecksumFrom(a, start) + ChecksumFrom(b, start + |a|)
    decreases |a|
  {
    if |a| == 0 {
      assert a + b == b;
    } else {
      var ab := a + b;
      assert ab[1..] == a[1..] + b && ab[0] == a[0];
      ChecksumFromAppend(a[1..], b, start + 1);
      assert ChecksumFrom(ab, start) == Term(start, a[0]) + ChecksumFrom(ab[1..], start + 1);
    }
  }

  // ---------------------------------------------------------------- part 2

  predicate IsFile(e: Element, id: nat)
  {
    e.File? && e.id == id
  }

  predicate Fits(e: Element, length: nat)
  {
    e.Gap? && e.length >= length
  }

  function FirstFileFrom(disk: seq<Element>, id: nat, k: nat): (r: Option<nat>)
    requires k <= |disk|
    ensures r.None? <==> forall j :: k <= j < |disk| ==> !IsFile(disk[j], id)
    ensures r.Some? ==> k <= r.value < |disk| && IsFile(disk[r.value], id)
                        && forall j :: k <= j < r.value ==> !IsFile(disk[j], id)
    decreases |disk| - k
  {
    if k == |disk| then None
    else if IsFile(disk[k], id) then Some(k)
    else FirstFileFrom(disk, id, k + 1)
  }

  /** The first file with the given id. */
  function FirstFile(disk: seq<Element>, id: nat): (r: Option<nat>)
    ensures r.None? <==> forall j :: 0 <= j < |disk| ==> !IsFile(disk[j], id)
    ensures r.Some? ==> r.value < |disk| && IsFile(disk[r.value], id)
                        && forall j :: 0 <= j < r.value ==> !IsFile(disk[j], id)
  {
    FirstFileFrom(disk, id, 0)
  }

  function FirstFitFrom(disk: seq<Element>, limit: nat, length: nat, k: nat): (r: Option<nat>)
    requires k <= limit <= |disk|
    ensures r.None? <==> forall j :: k <= j < limit ==> !Fits(disk[j], length)
    ensures r.Some? ==> k <= r.value < limit && Fits(disk[r.value], length)
                        && forall j :: k <= j < r.value ==> !Fits(disk[j], length)
    decreases limit - k
  {
    if k == limit then None
    else if Fits(disk[k], length) then Some(k)
    else FirstFitFrom(disk, limit, length, k + 1)
  }

  /** The first gap before `limit` at least `length` long. */
  function FirstFit(disk: seq<Element>, limit: nat, length: nat): (r: Option<nat>)
    requires limit <= |disk|
    ensures r.None? <==> forall j :: 0 <= j < limit ==> !Fits(disk[j], length)
    ensures r.Some? ==> r.value < limit && Fits(disk[r.value], length)
                        && forall j :: 0 <= j < r.value ==> !Fits(disk[j], length)
  {
    FirstFitFrom(disk, limit, length, 0)
  }

  /** The files of a disk, as a multiset. */
  function Files(disk: seq<Element>): multiset<Element>
  {
    if |disk| == 0 then multiset{}
    else (if disk[0].File? then multiset{disk[0]} else multiset{}) + Files(disk[1..])
  }

  lemma {:induction false} FilesAppend(a: seq<Element>, b: seq<Element>)
    ensures Files(a + b) == Files(a) + Files(b)
    ensures TotalLength(a + b) == TotalLength(a) + TotalLength(b)
    decreases |a|
  {
    if |a| == 0 {
      assert a + b == b;
    } else {
      assert (a + b)[1..] == a[1..] + b;
      FilesAppend(a[1..], b);
    }
  }

  lemma FilesSingle(e: Element)
    ensures Files([e]) == (if e.File? then multiset{e} else multiset{})
    ensures TotalLength([e]) == e.length
  {
    assert [e][1..] == [];
  }

  /** The element list with the file at `i` written into the gap at `g` and a gap left behind. */
  function Relocate(disk: seq<Element>, i: nat, g: nat): (r: seq<Element>)
    requires g < i < |disk| && disk[i].File? && disk[g].Gap? && disk[g].length >= disk[i].length
    ensures |r| == |disk| + 1 && r[..g] == disk[..g]
    ensures r[g] == disk[i] && r[g + 1] == Gap(disk[g].length - disk[i].length)
    ensures r[g + 2..i + 1] == disk[g + 1..i] && r[i + 1] == Gap(disk[i].length) && r[i + 2..] == disk[i + 1..]
  {
    var length := disk[i].length;
    disk[..g] + [disk[i], Gap(disk[g].length - length)] + disk[g + 1..i] + [Gap(length)] + disk[i + 1..]
  }

  lemma Split5(a: seq<Element>, x: seq<Element>, m: seq<Element>, y: seq<Element>, b: seq<Element>)
    ensures Files(a + x + m + y + b) == Files(a) + Files(x) + Files(m) + Files(y) + Files(b)
    ensures TotalLength(a + x + m + y + b) == TotalLength(a) + TotalLength(x) + TotalLength(m) + TotalLength(y) + TotalLength(b)
  {
    FilesAppend(a + x + m + y, b);
    FilesAppend(a + x + m, y);
    FilesAppend(a + x, m);
    FilesAppend(a, x);
  }

  /** Replacing two pieces by two others with the same files and total length keeps both. */
  lemma Exchange(a: seq<Element>, x: seq<Element>, m: seq<Element>, y: seq<Element>, b: seq<Element>,
                 x': seq<Element>, y': seq<Element>)
    requires Files(x) + Files(y) == Files(x') + Files(y')
    requires TotalLength(x) + TotalLength(y) == TotalLength(x') + TotalLength(y')
    ensures Files(a + x + m + y + b) == Files(a + x' + m + y' + b)
    ensures TotalLength(a + x + m + y + b) == TotalLength(a + x' + m + y' + b)
  {
    Split5(a, x, m, y, b);
    Split5(a, x', m, y', b);
    SwapMiddle(Files(a), Files(x), Files(m), Files(y), Files(b), Files(x'), Files(y'));
  }

  lemma SwapMiddle(a: multiset<Element>, x: multiset<Element>, m: multiset<Element>, y: multiset<Element>,
                   b: multiset<Element>, x': multiset<Element>, y': multiset<Element>)
    requires x + y == x' + y'
    ensures a + x + m + y + b == a + x' + m + y' + b
  {
    forall e
      ensures (a + x + m + y + b)[e] == (a + x' + m + y' + b)[e]
    {
      assert (x + y)[e] == (x' + y')[e];
    }
  }

  lemma FilesPair(f: Element, gap: Element)
    requires f.File? && gap.Gap?
    ensures Files([f, gap]) == multiset{f}
    ensures TotalLength([f, gap]) == f.length + gap.length
  {
    assert [f, gap][1..] == [gap];
    FilesSingle(gap);
  }

  lemma Decompose(disk: seq<Element>, g: nat, i: nat)
    requires g < i < |disk|
    ensures disk == disk[..g] + [disk[g]] + disk[g + 1..i] + [disk[i]] + disk[i + 1..]
  {
    assert disk[..i] == disk[..g] + [disk[g]] + disk[g + 1..i];
    assert disk == disk[..i] + [disk[i]] + disk[i + 1..];
  }

  lemma RelocateKeeps(disk: seq<Element>, i: nat, g: nat)
    requires g < i < |disk| && disk[i].File? && disk[g].Gap? && disk[g].length >= disk[i].length
    ensures Files(Relocate(disk, i, g)) == Files(disk)
    ensures TotalLength(Relocate(disk, i, g)) == TotalLength(disk)
  {
    var length := disk[i].length;
    var gg, f := disk[g], disk[i];
    var a, m, b := disk[..g], disk[g + 1..i], disk[i + 1..];
    var left := Gap(gg.length - length);
    assert Relocate(disk, i, g) == a + [f, left] + m + [Gap(length)] + b;
    assert Files([gg]) + Files([f]) == Files([f, left]) + Files([Gap(length)]) by {
      FilesSingle(gg);
      FilesSingle(f);
      FilesSingle(Gap(length));
      FilesPair(f, left);
    }
    assert TotalLength([gg]) + TotalLength([f]) == TotalLength([f, left]) + TotalLength([Gap(length)]) by {
      FilesSingle(gg);
      FilesSingle(f);
      FilesSingle(Gap(length));
      FilesPair(f, left);
    }
    Exchange(a, [gg], m, [f], b, [f, left], [Gap(length)]);
    assert disk == a + [gg] + m + [f] + b by {
      Decompose(disk, g, i);
    }
  }

  /**
   The first file with this id, at `i`, went into the gap at `g`: the first
   gap before it at least as long as the file. A gap of the file's length is
   left where the file was, the rest of that gap stays after the file, and
   everything else keeps its order.
   */
  predicate Moved(disk: seq<Element>, r: seq<Element>, id: nat, i: nat, g: nat)
  {
    g < i < |disk| && |r| == |disk| + 1
    && IsFile(disk[i], id) && (forall j :: 0 <= j < i ==> !IsFile(disk[j], id))
    && Fits(disk[g], disk[i].length) && (forall j :: 0 <= j < g ==> !Fits(disk[j], disk[i].length))
    && r[..g] == disk[..g] && r[g] == disk[i] && r[g + 1] == Gap(disk[g].length - disk[i].length)
    && r[g + 2..i + 1] == disk[g + 1..i] && r[i + 1] == Gap(disk[i].length) && r[i + 2..] == disk[i + 1..]
  }

  /** Some gap before the first file with this id is long enough to take it. */
  predicate CanMove(disk: seq<Element>, id: nat)
  {
    exists i, g :: 0 <= g < i < |disk| && IsFile(disk[i], id) && (forall j :: 0 <= j < i ==> !IsFile(disk[j], id))
                   && Fits(disk[g], disk[i].length)
  }

  /** The file moves exactly when some gap before it can take it; otherwise the disk stays as it is. */
  ghost predicate MoveOutcome(disk: seq<Element>, id: nat, r: seq<Element>)
  {
    && (CanMove(disk, id) ==> exists i, g :: Moved(disk, r, id, i, g))
    && (!CanMove(disk, id) ==> r == disk)
  }

  /** Only the first file with an id can be the one `CanMove` speaks of. */
  lemma CannotMove(disk: seq<Element>, id: nat, i: nat)
    requires i < |disk| && IsFile(disk[i], id) && forall j :: 0 <= j < i ==> !IsFile(disk[j], id)
    requires forall j :: 0 <= j < i ==> !Fits(disk[j], disk[i].length)
    ensures !CanMove(disk, id)
  {
  }

  /**
   One round of part 2: the first file with this id moves into the first gap
   before it that is long enough, leaving a gap of its length behind; if there
   is no such gap, or no such file, nothing changes.
   */
  function MoveFile(disk: seq<Element>, id: nat): (r: seq<Element>)
    ensures Files(r) == Files(disk) && TotalLength(r) == TotalLength(disk)
    ensures MoveOutcome(disk, id, r)
  {
    match FirstFile(disk, id)
    case None =>
      assert !CanMove(disk, id);
      disk
    case Some(i) =>
      match FirstFit(disk, i, disk[i].length)
      case None =>
        CannotMove(disk, id, i);
        disk
      case Some(g) =>
        RelocateKeeps(disk, i, g);
        assert Moved(disk, Relocate(disk, i, g), id, i, g);
        assert CanMove(disk, id);
        assert MoveOutcome(disk, id, Relocate(disk, i, g));
        Relocate(disk, i, g)
  }

  /** The id of the last file on the disk (the source unwraps its absence). */
  function LastFileId(disk: seq<Element>): (id: nat)
    requires exists k :: 0 <= k < |disk| && disk[k].File?
    ensures exists k :: 0 <= k < |disk| && IsFile(disk[k], id) && forall j :: k < j < |disk| ==> !disk[j].File?
  {
    disk[LastFileBefore(disk, |disk|)].id
  }

  function LastFileBefore(disk: seq<Element>, n: nat): (k: nat)
    requires n <= |disk| && exists k :: 0 <= k < n && disk[k].File?
    ensures k < n && disk[k].File? && forall j :: k < j < n ==> !disk[j].File?
    decreases n
  {
    if disk[n - 1].File? then n - 1 else LastFileBefore(disk, n - 1)
  }

  /** Rounds for ids `curr`, `curr - 1`, ..., 1; file 0 is never tried. */
  function MoveFilesDown(disk: seq<Element>, curr: nat): (r: seq<Element>)
    ensures Files(r) == Files(disk) && TotalLength(r) == TotalLength(disk)
    decreases curr
  {
    if curr == 0 then disk else MoveFilesDown(MoveFile(disk, curr), curr - 1)
  }

  /** Whole-file compaction: every id from the last file's down to 1 gets one chance to move. */
  function SmartCompact(disk: seq<Element>): (r: seq<Element>)
    requires exists k :: 0 <= k < |disk| && disk[k].File?
    ensures Files(r) == Files(disk)
    ensures |NaiveRepr(r)| == |NaiveRepr(disk)|
  {
    MoveFilesDown(disk, LastFileId(disk))
  }

  predicate Front(disk: seq<Element>, e: Element)
  {
    |disk| > 0 && disk[0] == e
  }

  /** A file at the front never moves: there is no gap before it. */
  lemma MoveFileKeepsFront(disk: seq<Element>, id: nat, e: Element)
    requires Front(disk, e) && e.File?
    ensures Front(MoveFile(disk, id), e)
  {
    match FirstFile(disk, id)
    case None =>
    case Some(i) =>
      match FirstFit(disk, i, disk[i].length)
      case None =>
      case Some(g) =>
        assert g > 0;
  }

  lemma {:induction false} MoveFilesDownKeepsFront(disk: seq<Element>, curr: nat, e: Element)
    requires Front(disk, e) && e.File?
    ensures Front(MoveFilesDown(disk, curr), e)
    decreases curr
  {
    if curr > 0 {
      var next := MoveFile(disk, curr);
      MoveFileKeepsFront(disk, curr, e);
      MoveFilesDownKeepsFront(next, curr - 1, e);
    }
  }

  /** File 0, which loading puts first, is still first after part 2's compaction. */
  lemma FileZeroStays(data: string)
    requires AllDigits(data) && |data| > 0
    ensures var disk := SmartLoad(data);
            disk[0] == File(0, DigitValue(data[0]))
            && SmartCompact(disk)[0] == disk[0]
  {
    var disk := SmartLoad(data);
    assert disk[0] == Entry(data, 0);
    MoveFilesDownKeepsFront(disk, LastFileId(disk), disk[0]);
  }

  // ---------------------------------------------------------------- answers

  /** Part 1. */
  method ChecksumCompactedDiskNaive(data: string) returns (c: nat)
    requires AllDigits(data)
    requires -1 in NaiveLoad(data)
    requires exists v :: v in NaiveLoad(data) && v != -1
    ensures exists r :: multiset(r) == multiset(NaiveLoad(data)) && c == Checksum(r)
                        && forall i, j :: 0 <= i < j < |r| && r[i] == -1 ==> r[j] == -1
    ensures c == Checksum(Compacted(NaiveLoad(data)))
  {
    var r := NaiveCompact(NaiveLoad(data));
    c := Checksum(r);
  }

  /**
   Part 2: the checksum of the disk after one round per file, from the last
   file's id down to 1. The disk it is taken over keeps every file, the total
   length, and file 0 at the front.
   */
  function ChecksumCompactedDiskSmart(data: string): (c: nat)
    requires AllDigits(data) && |data| > 0
    ensures exists r :: |r| > 0 && Files(r) == Files(SmartLoad(data)) && TotalLength(r) == TotalLength(SmartLoad(data))
                        && r[0] == File(0, DigitValue(data[0])) && c == Checksum(NaiveRepr(r))
  {
    var disk := SmartLoad(data);
    assert disk[0].File?;
    FileZeroStays(data);
    var r := SmartCompact(disk);
    assert TotalLength(r) == TotalLength(disk) by {
      assert |NaiveRepr(r)| == |NaiveRepr(disk)|;
    }
    Checksum(NaiveRepr(r))
  }
}
