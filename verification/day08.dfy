/**
 Day 8: antennas on a map, grouped by frequency. Part 1 collects, for every
 ordered pair of same-frequency antennas `a`, `b`, the point `2a - b` when it
 lies on the map. Part 2 collects every point `a - k(b - a)` on the map for
 nonzero integers `k`, walking outwards from `a` in both directions until the
 walk leaves the map, together with the antennas themselves.
 */
module Day08 {

  datatype Coords = Coords(x: int, y: int)

  /** The map's last column and last row, and the antennas of each frequency in reading order. */
  datatype MapSummary = MapSummary(maxX: nat, maxY: nat, antennas: map<char, seq<Coords>>)

  // ---------------------------------------------------------------- loading

  /** Reading order: row by row, left to right within a row. */
  predicate Before(c: Coords, y: int, x: int)
  {
    c.y < y || (c.y == y && c.x < x)
  }

  predicate IsCell(lines: seq<string>, c: Coords)
  {
    0 <= c.y < |lines| && 0 <= c.x < |lines[c.y]|
  }

  predicate StrictlyOrdered(g: seq<Coords>)
  {
    forall i, j :: 0 <= i < j < |g| ==> Before(g[i], g[j].y, g[j].x)
  }

  /**
   After scanning every cell before `(x, y)`: the recorded antennas are exactly
   the non-`.` cells seen so far, each under its own character, in reading order.
   */
  ghost predicate Scanned(s: MapSummary, lines: seq<string>, y: int, x: int)
  {
    ScannedSound(s, lines, y, x) && ScannedComplete(s, lines, y, x) && ScannedOrdered(s)
  }

  /** Every recorded antenna is a non-`.` cell seen so far, under its own character. */
  ghost predicate ScannedSound(s: MapSummary, lines: seq<string>, y: int, x: int)
  {
    forall f, c :: f in s.antennas && c in s.antennas[f] ==> SeenAntenna(lines, y, x, f, c)
  }

  /** `c` is a cell seen before `(x, y)` and holds the antenna character `f`. */
  predicate SeenAntenna(lines: seq<string>, y: int, x: int, f: char, c: Coords)
  {
    IsCell(lines, c) && Before(c, y, x) && lines[c.y][c.x] == f && f != '.'
  }

  /** Every non-`.` cell seen so far is recorded under its character. */
  ghost predicate ScannedComplete(s: MapSummary, lines: seq<string>, y: int, x: int)
  {
    forall c :: IsCell(lines, c) && Before(c, y, x) && lines[c.y][c.x] != '.' ==>
      lines[c.y][c.x] in s.antennas && c in s.antennas[lines[c.y][c.x]]
  }

  /** Each frequency's antennas are in reading order. */
  ghost predicate ScannedOrdered(s: MapSummary)
  {
    forall f :: f in s.antennas ==> StrictlyOrdered(s.antennas[f])
  }

  function Group(s: MapSummary, f: char): seq<Coords>
  {
    if f in s.antennas then s.antennas[f] else []
  }

  /** One byte of the map: record an antenna unless it is `.`; the column becomes the last one seen. */
  function Visit(s: MapSummary, f: char, x: nat, y: nat): MapSummary
  {
    var antennas := if f != '.' then s.antennas[f := Group(s, f) + [Coords(x, y)]] else s.antennas;
    MapSummary(x, s.maxY, antennas)
  }

  lemma VisitOrdered(s: MapSummary, lines: seq<string>, y: nat, x: nat)
    requires y < |lines| && x < |lines[y]| && Scanned(s, lines, y, x)
    ensures ScannedOrdered(Visit(s, lines[y][x], x, y))
  {
    var f := lines[y][x];
    if f != '.' {
      var old_ := Group(s, f);
      var g := old_ + [Coords(x, y)];
      assert StrictlyOrdered(old_);
      forall i, j | 0 <= i < j < |g|
        ensures Before(g[i], g[j].y, g[j].x)
      {
        assert g[i] == old_[i];
        if j == |g| - 1 {
          assert f in s.antennas && old_[i] in s.antennas[f];
        } else {
          assert g[j] == old_[j];
        }
      }
      assert Visit(s, f, x, y).antennas[f] == g;
    }
  }

  lemma VisitSound(s: MapSummary, lines: seq<string>, y: nat, x: nat)
    requires y < |lines| && x < |lines[y]| && ScannedSound(s, lines, y, x)
    ensures ScannedSound(Visit(s, lines[y][x], x, y), lines, y, x + 1)
  {
    var f := lines[y][x];
    var s' := Visit(s, f, x, y);
    forall f', c | f' in s'.antennas && c in s'.antennas[f']
      ensures SeenAntenna(lines, y, x + 1, f', c)
    {
      VisitSoundEntry(s, lines, y, x, f', c);
    }
    assert ScannedSound(s', lines, y, x + 1);
  }

  /** One recorded position after the visit: either recorded before, or the visited cell itself. */
  lemma VisitSoundEntry(s: MapSummary, lines: seq<string>, y: nat, x: nat, f': char, c: Coords)
    requires y < |lines| && x < |lines[y]| && ScannedSound(s, lines, y, x)
    requires f' in Visit(s, lines[y][x], x, y).antennas && c in Visit(s, lines[y][x], x, y).antennas[f']
    ensures SeenAntenna(lines, y, x + 1, f', c)
  {
    var f := lines[y][x];
    var s' := Visit(s, f, x, y);
    if f == '.' || f' != f {
      assert s'.antennas[f'] == s.antennas[f'];
      SoundAt(s, lines, y, x, f', c);
    } else {
      assert s'.antennas[f] == Group(s, f) + [Coords(x, y)];
      if c != Coords(x, y) {
        assert c in Group(s, f);
        SoundAt(s, lines, y, x, f, c);
      }
    }
  }

  /** What soundness says about one recorded position. */
  lemma SoundAt(s: MapSummary, lines: seq<string>, y: int, x: int, f: char, c: Coords)
    requires ScannedSound(s, lines, y, x) && f in s.antennas && c in s.antennas[f]
    ensures SeenAntenna(lines, y, x, f, c)
  {
  }

  lemma VisitComplete(s: MapSummary, lines: seq<string>, y: nat, x: nat)
    requires y < |lines| && x < |lines[y]| && ScannedComplete(s, lines, y, x)
    ensures ScannedComplete(Visit(s, lines[y][x], x, y), lines, y, x + 1)
  {
    var s' := Visit(s, lines[y][x], x, y);
    forall c | IsCell(lines, c) && Before(c, y, x + 1) && lines[c.y][c.x] != '.'
      ensures lines[c.y][c.x] in s'.antennas && c in s'.antennas[lines[c.y][c.x]]
    {
      if c != Coords(x, y) {
        assert Before(c, y, x);
      }
    }
  }

  lemma VisitScanned(s: MapSummary, lines: seq<string>, y: nat, x: nat)
    requires y < |lines| && x < |lines[y]| && Scanned(s, lines, y, x)
    ensures Scanned(Visit(s, lines[y][x], x, y), lines, y, x + 1)
  {
    VisitOrdered(s, lines, y, x);
    VisitSound(s, lines, y, x);
    VisitComplete(s, lines, y, x);
  }

  function ScanRow(lines: seq<string>, y: nat, x: nat, s: MapSummary): (r: MapSummary)
    requires y < |lines| && x <= |lines[y]| && Scanned(s, lines, y, x)
    ensures Scanned(r, lines, y, |lines[y]|) && r.maxY == s.maxY
    ensures r.maxX == if x < |lines[y]| then |lines[y]| - 1 else s.maxX
    decreases |lines[y]| - x
  {
    if x == |lines[y]| then s
    else
      VisitScanned(s, lines, y, x);
      ScanRow(lines, y, x + 1, Visit(s, lines[y][x], x, y))
  }

  /** The end of a row is the start of the next. */
  lemma RowDone(s: MapSummary, lines: seq<string>, y: nat)
    requires y < |lines| && Scanned(s, lines, y, |lines[y]|)
    ensures Scanned(s.(maxY := y), lines, y + 1, 0)
  {
    forall c | IsCell(lines, c) && Before(c, y + 1, 0)
      ensures Before(c, y, |lines[y]|)
    {
    }
    forall f, c | f in s.antennas && c in s.antennas[f]
      ensures Before(c, y + 1, 0)
    {
      assert Before(c, y, |lines[y]|);
    }
  }

  /** The last column seen in the first `n` lines: the end of the last non-empty one. */
  function LastColumn(lines: seq<string>, n: nat): nat
    requires n <= |lines|
  {
    if n == 0 then 0 else if |lines[n - 1]| == 0 then LastColumn(lines, n - 1) else |lines[n - 1]| - 1
  }

  function LoadFrom(lines: seq<string>, y: nat, s: MapSummary): (r: MapSummary)
    requires y <= |lines| && Scanned(s, lines, y, 0)
    requires s.maxX == LastColumn(lines, y)
    requires s.maxY == if y == 0 then 0 else y - 1
    ensures Scanned(r, lines, |lines|, 0)
    ensures r.maxX == LastColumn(lines, |lines|)
    ensures r.maxY == if |lines| == 0 then 0 else |lines| - 1
    decreases |lines| - y
  {
    if y == |lines| then s
    else
      var row := ScanRow(lines, y, 0, s);
      RowDone(row, lines, y);
      LoadFrom(lines, y + 1, row.(maxY := y))
  }

  /**
   Records every non-`.` character of the map as an antenna at its `(x, y)`,
   grouped by character. The bounds are the last column and last row seen.
   */
  function LoadData(lines: seq<string>): (s: MapSummary)
    ensures forall f, c :: f in s.antennas && c in s.antennas[f] <==> IsCell(lines, c) && lines[c.y][c.x] == f && f != '.'
    ensures forall f :: f in s.antennas ==> Distinct(s.antennas[f])
    ensures s.maxX == LastColumn(lines, |lines|)
    ensures s.maxY == if |lines| == 0 then 0 else |lines| - 1
  {
    var s := LoadFrom(lines, 0, MapSummary(0, 0, map[]));
    forall f | f in s.antennas
      ensures Distinct(s.antennas[f])
    {
      var g := s.antennas[f];
      assert StrictlyOrdered(g);
      forall i, j | 0 <= i < |g| && 0 <= j < |g| && i != j
        ensures g[i] != g[j]
      {
        if i < j {
          assert Before(g[i], g[j].y, g[j].x);
        } else {
          assert Before(g[j], g[i].y, g[i].x);
        }
      }
    }
    s
  }

  predicate Distinct(g: seq<Coords>)
  {
    forall i, j :: 0 <= i < |g| && 0 <= j < |g| && i != j ==> g[i] != g[j]
  }

  /** Every frequency's antennas sit at distinct places (as loading guarantees). */
  predicate WellFormed(s: MapSummary)
  {
    forall f :: f in s.antennas ==> Distinct(s.antennas[f])
  }

  // ---------------------------------------------------------------- part 1

  predicate InArea(c: Coords, s: MapSummary)
  {
    0 <= c.x <= s.maxX && 0 <= c.y <= s.maxY
  }

  /** `a - m(b - a)`: the point `m` steps beyond `a`, away from `b`. */
  function Along(a: Coords, b: Coords, m: int): Coords
  {
    Coords(a.x - (b.x - a.x) * m, a.y - (b.y - a.y) * m)
  }

  /** `c` is `2a - b` for two distinct same-frequency antennas `a`, `b`. */
  ghost predicate IsReflection(s: MapSummary, c: Coords)
  {
    exists f, i, j ::
      f in s.antennas && 0 <= i < |s.antennas[f]| && 0 <= j < |s.antennas[f]| && i != j
      && c == Coords(2 * s.antennas[f][i].x - s.antennas[f][j].x, 2 * s.antennas[f][i].y - s.antennas[f][j].y)
  }

  /** Part 1: the reflections `2a - b` of ordered same-frequency pairs that lie on the map. */
  function Antinodes(s: MapSummary): (r: set<Coords>)
    ensures forall c :: c in r ==> InArea(c, s)
    ensures forall c :: c in r <==> InArea(c, s) && IsReflection(s, c)
  {
    set f, i, j | f in s.antennas && 0 <= i < |s.antennas[f]| && 0 <= j < |s.antennas[f]| && i != j
                  && InArea(Along(s.antennas[f][i], s.antennas[f][j], 1), s)
      :: Along(s.antennas[f][i], s.antennas[f][j], 1)
  }

  // ---------------------------------------------------------------- part 2

  function Abs(n: int): nat { if n < 0 then -n else n }

  /** A step of a nonzero direction moves the point by at least one unit per multiple. */
  lemma StepBound(a: Coords, b: Coords, k: nat, s: MapSummary)
    requires a != b && InArea(Along(a, b, k), s)
    ensures k < Abs(a.x) + Abs(a.y) + s.maxX + s.maxY + 1
  {
    var dx, dy := b.x - a.x, b.y - a.y;
    if dx != 0 {
      AbsMulGe(dx, k);
    } else {
      AbsMulGe(dy, k);
    }
  }

  lemma AbsMulGe(d: int, k: nat)
    requires d != 0
    ensures Abs(d * k) >= k
  {
    var p := d * k;
    if d > 0 {
      assert p == (d - 1) * k + k;
      assert (d - 1) * k >= 0;
    } else {
      assert -p == (-d - 1) * k + k;
      assert (-d - 1) * k >= 0;
    }
  }

  /** The walk `a - m(b - a)` for `m = k, k+1, ...`, stopping at the first point off the map. */
  function Ray(a: Coords, b: Coords, k: nat, s: MapSummary): (r: set<Coords>)
    requires a != b
    ensures forall c :: c in r ==> InArea(c, s)
    decreases Abs(a.x) + Abs(a.y) + s.maxX + s.maxY + 1 - k
  {
    var c := Along(a, b, k);
    if InArea(c, s) then
      StepBound(a, b, k, s);
      {c} + Ray(a, b, k + 1, s)
    else {}
  }

  /** Along one coordinate: if it starts inside `[0, hi]` and has left it at `k`, it stays outside. */
  lemma StaysOut(a: int, d: int, hi: int, k: nat, m: nat)
    requires 0 <= a <= hi && k <= m
    requires !(0 <= a - d * k <= hi)
    ensures !(0 <= a - d * m <= hi)
  {
    if d >= 0 {
      assert d * k <= d * m;
    } else {
      assert d * k >= d * m;
    }
  }

  /**
   From an antenna on the map, the walk reaches exactly the points `a - m(b - a)`
   with `m >= k` that lie on the map: the map is convex, so a walk that has
   left it never comes back.
   */
  lemma {:induction false} RayMembers(a: Coords, b: Coords, k: nat, s: MapSummary, c: Coords)
    requires a != b && InArea(a, s)
    ensures c in Ray(a, b, k, s) <==> exists m: nat :: m >= k && c == Along(a, b, m) && InArea(c, s)
    decreases Abs(a.x) + Abs(a.y) + s.maxX + s.maxY + 1 - k
  {
    var ck := Along(a, b, k);
    if InArea(ck, s) {
      StepBound(a, b, k, s);
      RayMembers(a, b, k + 1, s, c);
      if exists m: nat :: m >= k && c == Along(a, b, m) && InArea(c, s) {
        var m: nat :| m >= k && c == Along(a, b, m) && InArea(c, s);
        if m > k {
          assert m >= k + 1;
        }
      }
    } else {
      forall m: nat | m >= k
        ensures !InArea(Along(a, b, m), s)
      {
        if 0 <= a.x - (b.x - a.x) * k <= s.maxX {
          StaysOut(a.y, b.y - a.y, s.maxY, k, m);
        } else {
          StaysOut(a.x, b.x - a.x, s.maxX, k, m);
        }
      }
    }
  }

  /** Every point the two walks from `a` reach for the pair `(a, b)`, and the pair itself. */
  function Harmonics(a: Coords, b: Coords, s: MapSummary): set<Coords>
    requires a != b
  {
    Ray(a, b, 1, s) + Ray(a, Coords(2 * a.x - b.x, 2 * a.y - b.y), 1, s) + {a, b}
  }

  /**
   Part 2: the harmonics of every ordered pair of distinct same-frequency
   antennas. Each of them is on the map or is one of the antennas.
   */
  function HarmonicAntinodes(s: MapSummary): (r: set<Coords>)
    requires WellFormed(s)
    ensures forall c :: c in r ==>
              InArea(c, s) || exists f, k :: f in s.antennas && 0 <= k < |s.antennas[f]| && c == s.antennas[f][k]
  {
    set f, i, j, c | f in s.antennas && 0 <= i < |s.antennas[f]| && 0 <= j < |s.antennas[f]| && i != j
                     && c in Harmonics(s.antennas[f][i], s.antennas[f][j], s)
      :: c
  }

  /** Part 1 is contained in part 2: multiple 1 of the walk is the part 1 candidate. */
  lemma AntinodesInHarmonics(s: MapSummary)
    requires WellFormed(s)
    ensures Antinodes(s) <= HarmonicAntinodes(s)
  {
    forall c | c in Antinodes(s)
      ensures c in HarmonicAntinodes(s)
    {
      var f, i, j :| f in s.antennas && 0 <= i < |s.antennas[f]| && 0 <= j < |s.antennas[f]| && i != j
                     && InArea(Along(s.antennas[f][i], s.antennas[f][j], 1), s)
                     && c == Along(s.antennas[f][i], s.antennas[f][j], 1);
      assert c in Ray(s.antennas[f][i], s.antennas[f][j], 1, s);
      assert c in Harmonics(s.antennas[f][i], s.antennas[f][j], s);
    }
  }

  /** Every antenna sharing its frequency with another is a part 2 antinode; lone antennas add nothing. */
  lemma AntennasInHarmonics(s: MapSummary, f: char, i: nat)
    requires WellFormed(s) && f in s.antennas && i < |s.antennas[f]|
    ensures |s.antennas[f]| >= 2 ==> s.antennas[f][i] in HarmonicAntinodes(s)
    ensures |s.antennas[f]| == 1 ==>
            forall c :: c in HarmonicAntinodes(s) ==>
              exists f', a, b :: f' in s.antennas && f' != f && 0 <= a < |s.antennas[f']| && 0 <= b < |s.antennas[f']| && a != b
                                 && c in Harmonics(s.antennas[f'][a], s.antennas[f'][b], s)
  {
    if |s.antennas[f]| >= 2 {
      var j := if i == 0 then 1 else 0;
      assert s.antennas[f][i] in Harmonics(s.antennas[f][i], s.antennas[f][j], s);
    }
  }

  /** A walk depends only on the size of the map, not on its antennas. */
  lemma {:induction false} RayArea(a: Coords, b: Coords, k: nat, s: MapSummary, t: MapSummary)
    requires a != b && s.maxX == t.maxX && s.maxY == t.maxY
    ensures Ray(a, b, k, s) == Ray(a, b, k, t)
    decreases Abs(a.x) + Abs(a.y) + s.maxX + s.maxY + 1 - k
  {
    if InArea(Along(a, b, k), s) {
      StepBound(a, b, k, s);
      RayArea(a, b, k + 1, s, t);
    }
  }

  lemma HarmonicsArea(a: Coords, b: Coords, s: MapSummary, t: MapSummary)
    requires a != b && s.maxX == t.maxX && s.maxY == t.maxY
    ensures Harmonics(a, b, s) == Harmonics(a, b, t)
  {
    RayArea(a, b, 1, s, t);
    RayArea(a, Coords(2 * a.x - b.x, 2 * a.y - b.y), 1, s, t);
  }

  /** A frequency with a single antenna can be dropped from the map without changing part 2's answer. */
  lemma LoneAntennaAddsNothing(s: MapSummary, f: char)
    requires WellFormed(s) && f in s.antennas && |s.antennas[f]| == 1
    ensures WellFormed(s.(antennas := s.antennas - {f}))
    ensures HarmonicAntinodes(s) == HarmonicAntinodes(s.(antennas := s.antennas - {f}))
  {
    var t := s.(antennas := s.antennas - {f});
    forall c | c in HarmonicAntinodes(s)
      ensures c in HarmonicAntinodes(t)
    {
      var f', i, j :| f' in s.antennas && 0 <= i < |s.antennas[f']| && 0 <= j < |s.antennas[f']| && i != j
                      && c in Harmonics(s.antennas[f'][i], s.antennas[f'][j], s);
      assert f' != f;
      assert t.antennas[f'] == s.antennas[f'];
      HarmonicsArea(s.antennas[f'][i], s.antennas[f'][j], s, t);
    }
    forall c | c in HarmonicAntinodes(t)
      ensures c in HarmonicAntinodes(s)
    {
      var f', i, j :| f' in t.antennas && 0 <= i < |t.antennas[f']| && 0 <= j < |t.antennas[f']| && i != j
                      && c in Harmonics(t.antennas[f'][i], t.antennas[f'][j], t);
      assert t.antennas[f'] == s.antennas[f'];
      HarmonicsArea(s.antennas[f'][i], s.antennas[f'][j], s, t);
    }
  }

  lemma AlongReversed(a: Coords, b: Coords, m: int)
    ensures Along(a, Coords(2 * a.x - b.x, 2 * a.y - b.y), m) == Along(a, b, -m)
  {
    assert (2 * a.x - b.x - a.x) * m == (b.x - a.x) * -m;
    assert (2 * a.y - b.y - a.y) * m == (b.y - a.y) * -m;
  }

  /** The harmonics of one pair on the map lie on the map, at whole multiples of the pair's distance. */
  lemma PairOnLine(a: Coords, b: Coords, s: MapSummary, c: Coords)
    requires a != b && InArea(a, s) && InArea(b, s)
    requires c in Harmonics(a, b, s)
    ensures InArea(c, s)
    ensures exists m :: c == Along(a, b, m)
  {
    var b' := Coords(2 * a.x - b.x, 2 * a.y - b.y);
    if c in Ray(a, b, 1, s) {
      RayMembers(a, b, 1, s, c);
    } else if c in Ray(a, b', 1, s) {
      RayMembers(a, b', 1, s, c);
      var m: nat :| m >= 1 && c == Along(a, b', m) && InArea(c, s);
      AlongReversed(a, b, m);
    } else if c == a {
      assert c == Along(a, b, 0);
    } else {
      assert c == Along(a, b, -1);
    }
  }

  /**
   With every antenna on the map, each part 2 point is on the map and lies on
   the line through two same-frequency antennas, at a whole multiple of their
   distance from one of them.
   */
  lemma HarmonicsOnLines(s: MapSummary, c: Coords)
    requires WellFormed(s)
    requires forall f, k :: f in s.antennas && 0 <= k < |s.antennas[f]| ==> InArea(s.antennas[f][k], s)
    requires c in HarmonicAntinodes(s)
    ensures InArea(c, s)
    ensures exists f, i, j, m :: f in s.antennas && 0 <= i < |s.antennas[f]| && 0 <= j < |s.antennas[f]| && i != j
              && c == Along(s.antennas[f][i], s.antennas[f][j], m)
  {
    var f, i, j :| f in s.antennas && 0 <= i < |s.antennas[f]| && 0 <= j < |s.antennas[f]| && i != j
                   && c in Harmonics(s.antennas[f][i], s.antennas[f][j], s);
    PairOnLine(s.antennas[f][i], s.antennas[f][j], s, c);
  }

  // ---------------------------------------------------------------- answers

  /** Two different cells of the map hold the same antenna character. */
  ghost predicate SharedFrequency(lines: seq<string>)
  {
    exists c, d :: IsCell(lines, c) && IsCell(lines, d) && c != d
                   && lines[c.y][c.x] == lines[d.y][d.x] && lines[c.y][c.x] != '.'
  }

  /** The loaded map has a part 2 antinode exactly when two cells share an antenna character. */
  lemma SharedIffHarmonics(lines: seq<string>)
    ensures HarmonicAntinodes(LoadData(lines)) != {} <==> SharedFrequency(lines)
  {
    var s := LoadData(lines);
    if SharedFrequency(lines) {
      var c, d :| IsCell(lines, c) && IsCell(lines, d) && c != d
                  && lines[c.y][c.x] == lines[d.y][d.x] && lines[c.y][c.x] != '.';
      var f := lines[c.y][c.x];
      var i :| 0 <= i < |s.antennas[f]| && s.antennas[f][i] == c;
      var j :| 0 <= j < |s.antennas[f]| && s.antennas[f][j] == d;
      AntennasInHarmonics(s, f, i);
    }
    if HarmonicAntinodes(s) != {} {
      var c :| c in HarmonicAntinodes(s);
      var f, i, j :| f in s.antennas && 0 <= i < |s.antennas[f]| && 0 <= j < |s.antennas[f]| && i != j
                     && c in Harmonics(s.antennas[f][i], s.antennas[f][j], s);
      var a, b := s.antennas[f][i], s.antennas[f][j];
      assert a in s.antennas[f] && b in s.antennas[f];
    }
  }

  /**
   Part 2's answer: the number of distinct part 2 antinodes. It is 0 exactly
   when no antenna shares its frequency with another.
   */
  function UniqueAntinodeLocationsWithHarmonics(lines: seq<string>): (n: nat)
    ensures n == 0 <==> !SharedFrequency(lines)
  {
    SharedIffHarmonics(lines);
    |HarmonicAntinodes(LoadData(lines))|
  }

  /**
   Part 1's answer: the number of distinct part 1 antinodes. It never exceeds
   part 2's answer, and it is 0 when no antenna shares its frequency.
   */
  function UniqueAntinodeLocations(lines: seq<string>): (n: nat)
    ensures n <= UniqueAntinodeLocationsWithHarmonics(lines)
    ensures !SharedFrequency(lines) ==> n == 0
  {
    var s := LoadData(lines);
    AntinodesInHarmonics(s);
    SubsetCard(Antinodes(s), HarmonicAntinodes(s));
    |Antinodes(s)|
  }

  lemma {:induction false} SubsetCard(a: set<Coords>, b: set<Coords>)
    requires a <= b
    ensures |a| <= |b|
    decreases |a|
  {
    if a != {} {
      var c :| c in a;
      SubsetCard(a - {c}, b - {c});
    }
  }
}
