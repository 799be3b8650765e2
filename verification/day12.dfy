/**
 Day 12: garden plots. Each maximal orthogonally connected region of equal
 plant letters is a group; a group costs its area times its number of fence
 edges, or, with the bulk discount, its area times its number of corners
 (which equals its number of straight sides). Regions are found by a
 flood fill that marks visited cells by turning their upper-case letter
 into the lower-case one.
 */
module Day12 {
  import opened Grid

  /** Added to an upper-case plant byte to mark its cell as counted. */
  const UpperToLower: int := 32

  predicate IsUpper(v: int) { 'A' as int <= v <= 'Z' as int }
  predicate IsLower(v: int) { 'a' as int <= v <= 'z' as int }

  /** The source's test for a cell not yet part of any group: below `b'a'`. */
  predicate Unmarked(v: int) { v < 'a' as int }

  /** A rectangular map of plant letters, each either unvisited (upper case) or counted (lower case). */
  predicate Marking(m: seq<seq<int>>)
  {
    Rectangular(m)
    && forall j, i :: 0 <= j < |m| && 0 <= i < |m[j]| ==> IsUpper(m[j][i]) || IsLower(m[j][i])
  }

  /** `m'` is `m` with some cells of `plant` marked as counted, and nothing else changed. */
  predicate MarksOnly(m: seq<seq<int>>, m': seq<seq<int>>, plant: int)
  {
    |m'| == |m|
    && (forall j :: 0 <= j < |m| ==> |m'[j]| == |m[j]|)
    && forall j, i :: 0 <= j < |m| && 0 <= i < |m[j]| ==>
         m'[j][i] == m[j][i] || (m[j][i] == plant && m'[j][i] == plant + UpperToLower)
  }

  /** `m'` is `m` with some unvisited cells marked as counted, and nothing else changed. */
  predicate MarksSome(m: seq<seq<int>>, m': seq<seq<int>>)
  {
    |m'| == |m|
    && (forall j :: 0 <= j < |m| ==> |m'[j]| == |m[j]|)
    && forall j, i :: 0 <= j < |m| && 0 <= i < |m[j]| ==>
         m'[j][i] == m[j][i] || (IsUpper(m[j][i]) && m'[j][i] == m[j][i] + UpperToLower)
  }

  lemma MarksOnlyTrans(a: seq<seq<int>>, b: seq<seq<int>>, c: seq<seq<int>>, plant: int)
    requires MarksOnly(a, b, plant) && MarksOnly(b, c, plant)
    ensures MarksOnly(a, c, plant)
  {
  }

  lemma MarksSomeTrans(a: seq<seq<int>>, b: seq<seq<int>>, c: seq<seq<int>>)
    requires MarksSome(a, b) && MarksSome(b, c) && Marking(a)
    ensures MarksSome(a, c)
  {
  }

  /** Marking one unvisited cell keeps the map well formed and removes exactly one unvisited cell. */
  lemma MarkCell(m: seq<seq<int>>, x: nat, y: nat)
    requires Marking(m) && InBounds(m, x, y) && IsUpper(m[y][x])
    ensures Marking(Set(m, x, y, m[y][x] + UpperToLower))
    ensures MarksOnly(m, Set(m, x, y, m[y][x] + UpperToLower), m[y][x])
    ensures CountCells(Set(m, x, y, m[y][x] + UpperToLower), Unmarked) == CountCells(m, Unmarked) - 1
  {
    CountCellsSet(m, x, y, m[y][x] + UpperToLower, Unmarked);
  }

  /** The four looks of one fill step compose, and the cell marked first stays marked. */
  lemma Chain(m: seq<seq<int>>, m0: seq<seq<int>>, w: seq<seq<int>>, e: seq<seq<int>>, n: seq<seq<int>>, s: seq<seq<int>>,
              x: nat, y: nat)
    requires InBounds(m, x, y) && IsUpper(m[y][x])
    requires MarksOnly(m, m0, m[y][x]) && m0[y][x] == m[y][x] + UpperToLower
    requires MarksOnly(m0, w, m[y][x]) && MarksOnly(w, e, m[y][x]) && MarksOnly(e, n, m[y][x]) && MarksOnly(n, s, m[y][x])
    ensures MarksOnly(m, s, m[y][x]) && s[y][x] == m[y][x] + UpperToLower
  {
    var plant := m[y][x];
    MarksOnlyTrans(m0, w, e, plant);
    MarksOnlyTrans(m0, e, n, plant);
    MarksOnlyTrans(m0, n, s, plant);
    MarksOnlyTrans(m, m0, s, plant);
  }

  datatype Pos = Pos(x: nat, y: nat)

  /** A region: its area, fence edge count, one entry per corner (at the cell holding it), and its plant. */
  datatype Group = Group(area: nat, edges: nat, corners: seq<Pos>, plant: int)

  /** A group found by the flood fill, with the map as the fill left it. */
  datatype Explored = Explored(group: Group, lab: seq<seq<int>>)

  /** The neighbour at `(nx, ny)` exists and holds `plant`, counted or not. */
  predicate Same(m: seq<seq<int>>, nx: int, ny: int, plant: int)
  {
    InBounds(m, nx, ny) && (m[ny][nx] == plant || m[ny][nx] == plant + UpperToLower)
  }

  /**
   Whether the corner between two orthogonal sides of a cell is a corner of
   its region: both sides are fenced (outer corner), or both are open but the
   diagonal cell is not the same plant (inner corner).
   */
  predicate IsCorner(side1: bool, side2: bool, diagonal: bool)
  {
    (!side1 && !side2) || (side1 && side2 && !diagonal)
  }

  /** The corners of the region found at cell `(x, y)`, one entry for each. */
  function CellCorners(m: seq<seq<int>>, x: nat, y: nat, plant: int): (r: seq<Pos>)
    ensures |r| <= 4
    ensures forall k :: 0 <= k < |r| ==> r[k] == Pos(x, y)
  {
    var w := Same(m, x as int - 1, y, plant);
    var e := Same(m, x + 1, y, plant);
    var n := Same(m, x, y as int - 1, plant);
    var s := Same(m, x, y + 1, plant);
    var nw := Same(m, x as int - 1, y as int - 1, plant);
    var ne := Same(m, x + 1, y as int - 1, plant);
    var sw := Same(m, x as int - 1, y + 1, plant);
    var se := Same(m, x + 1, y + 1, plant);
    (if IsCorner(w, n, nw) then [Pos(x, y)] else [])
    + (if IsCorner(w, s, sw) then [Pos(x, y)] else [])
    + (if IsCorner(e, n, ne) then [Pos(x, y)] else [])
    + (if IsCorner(e, s, se) then [Pos(x, y)] else [])
  }

  /**
   The flood fill from an unvisited cell: mark it, record its corners, then
   look west, east, north and south in that order, each step working on the
   map as the previous one left it.
   */
  function ExploreGroup(m: seq<seq<int>>, x: nat, y: nat): (r: Explored)
    requires Marking(m) && InBounds(m, x, y) && IsUpper(m[y][x])
    ensures Marking(r.lab) && MarksOnly(m, r.lab, m[y][x])
    ensures r.lab[y][x] == m[y][x] + UpperToLower
    ensures r.group.plant == m[y][x]
    ensures 1 <= r.group.area == CountCells(m, Unmarked) - CountCells(r.lab, Unmarked)
    ensures r.group.edges <= 4 * r.group.area
    ensures |r.group.corners| <= 4 * r.group.area
    ensures SameShape(m, r.lab) && r.group.edges == FenceMarked(m, m, r.lab)
    decreases CountCells(m, Unmarked), 0
  {
    var plant := m[y][x];
    var m0 := Set(m, x, y, plant + UpperToLower);
    MarkCell(m, x, y);
    var corners := CellCorners(m0, x, y, plant);
    var w := Look(m0, x as int - 1, y, plant);
    var e := Look(w.lab, x + 1, y, plant);
    var n := Look(e.lab, x, y as int - 1, plant);
    var s := Look(n.lab, x, y + 1, plant);
    Chain(m, m0, w.lab, e.lab, n.lab, s.lab, x, y);
    FillTotals(corners, w.group, e.group, n.group, s.group);
    FillEdges(m, m0, w, e, n, s, x, y);
    var area := 1 + w.group.area + e.group.area + n.group.area + s.group.area;
    Explored(
      Group(area,
            w.group.edges + e.group.edges + n.group.edges + s.group.edges,
            corners + w.group.corners + e.group.corners + n.group.corners + s.group.corners,
            plant),
      s.lab)
  }

  /**
   What one look contributes: nothing but at most one fence edge when it
   finds no new cell, else at most four edges and four corners per cell.
   */
  predicate LookBounded(g: Group)
  {
    (g.area == 0 ==> g.edges <= 1 && g.corners == [])
    && (g.area > 0 ==> g.edges <= 4 * g.area)
    && |g.corners| <= 4 * g.area
  }

  /** A marked cell with its four looks has at most four edges and four corners per cell. */
  lemma FillTotals(corners: seq<Pos>, w: Group, e: Group, n: Group, s: Group)
    requires |corners| <= 4 && LookBounded(w) && LookBounded(e) && LookBounded(n) && LookBounded(s)
    ensures w.edges + e.edges + n.edges + s.edges <= 4 * (1 + w.area + e.area + n.area + s.area)
    ensures |corners + w.corners + e.corners + n.corners + s.corners| <= 4 * (1 + w.area + e.area + n.area + s.area)
  {
  }

  /**
   One direction of the fill: off the map is a fence edge; an unvisited cell
   of the same plant is explored; a counted cell of the same plant is
   nothing; any other plant is a fence edge.
   */
  function Look(m: seq<seq<int>>, nx: int, ny: int, plant: int): (r: Explored)
    requires Marking(m) && IsUpper(plant)
    ensures Marking(r.lab) && MarksOnly(m, r.lab, plant)
    ensures r.group.area == CountCells(m, Unmarked) - CountCells(r.lab, Unmarked)
    ensures LookBounded(r.group)
    ensures SameShape(m, r.lab) && r.group.edges == (if Same(m, nx, ny, plant) then 0 else 1) + FenceMarked(m, m, r.lab)
    decreases CountCells(m, Unmarked), 1
  {
    FenceNone(m, m);
    if !InBounds(m, nx, ny) then Explored(Group(0, 1, [], plant), m)
    else if m[ny][nx] == plant then ExploreGroup(m, nx, ny)
    else if m[ny][nx] != plant + UpperToLower then Explored(Group(0, 1, [], plant), m)
    else Explored(Group(0, 0, [], plant), m)
  }

  /** Five markings in a row: the fence sides they mark add up, each counted on the first map. */
  lemma FenceChain(m: seq<seq<int>>, m0: seq<seq<int>>, w: seq<seq<int>>, e: seq<seq<int>>, n: seq<seq<int>>, s: seq<seq<int>>)
    requires MarksSome(m, m0) && MarksSome(m0, w) && MarksSome(w, e) && MarksSome(e, n) && MarksSome(n, s)
    ensures MarksSome(m, w) && MarksSome(m, e) && MarksSome(m, n) && SameShape(m, s)
    ensures FenceMarked(m, m, s)
            == FenceMarked(m, m, m0) + FenceMarked(m0, m0, w) + FenceMarked(w, w, e) + FenceMarked(e, e, n) + FenceMarked(n, n, s)
  {
    FenceChainAdd(m, m0, w, e, n, s);
    FenceRef(m, m0, m0, w);
    FenceRef(m, w, w, e);
    FenceRef(m, e, e, n);
    FenceRef(m, n, n, s);
  }

  lemma FenceChainAdd(m: seq<seq<int>>, m0: seq<seq<int>>, w: seq<seq<int>>, e: seq<seq<int>>, n: seq<seq<int>>, s: seq<seq<int>>)
    requires MarksSome(m, m0) && MarksSome(m0, w) && MarksSome(w, e) && MarksSome(e, n) && MarksSome(n, s)
    ensures MarksSome(m, w) && MarksSome(m, e) && MarksSome(m, n) && SameShape(m, s)
    ensures FenceMarked(m, m, s)
            == FenceMarked(m, m, m0) + FenceMarked(m, m0, w) + FenceMarked(m, w, e) + FenceMarked(m, e, n) + FenceMarked(m, n, s)
  {
    FenceAdd(m, m, m0, w);
    FenceAdd(m, w, e, n);
    FenceAdd(m, w, n, s);
    FenceAdd(m, m, w, s);
    FenceAdd(m, m, w, e);
    FenceAdd(m, m, e, n);
  }

  /**
   The edges of one fill step are the fence sides of every cell it marked:
   the first cell's own sides, found by the four looks, plus what each look's
   own fill marked.
   */
  lemma FillEdges(m: seq<seq<int>>, m0: seq<seq<int>>, w: Explored, e: Explored, n: Explored, s: Explored, x: nat, y: nat)
    requires InBounds(m, x, y) && IsUpper(m[y][x]) && m0 == Set(m, x, y, m[y][x] + UpperToLower)
    requires MarksOnly(m, m0, m[y][x]) && MarksOnly(m0, w.lab, m[y][x]) && MarksOnly(w.lab, e.lab, m[y][x])
    requires MarksOnly(e.lab, n.lab, m[y][x]) && MarksOnly(n.lab, s.lab, m[y][x])
    requires w.group.edges == (if Same(m0, x as int - 1, y, m[y][x]) then 0 else 1) + FenceMarked(m0, m0, w.lab)
    requires e.group.edges == (if Same(w.lab, x + 1, y, m[y][x]) then 0 else 1) + FenceMarked(w.lab, w.lab, e.lab)
    requires n.group.edges == (if Same(e.lab, x, y as int - 1, m[y][x]) then 0 else 1) + FenceMarked(e.lab, e.lab, n.lab)
    requires s.group.edges == (if Same(n.lab, x, y + 1, m[y][x]) then 0 else 1) + FenceMarked(n.lab, n.lab, s.lab)
    ensures SameShape(m, s.lab)
    ensures w.group.edges + e.group.edges + n.group.edges + s.group.edges == FenceMarked(m, m, s.lab)
  {
    var plant := m[y][x];
    OnlyIsSome(m, m0, plant);
    OnlyIsSome(m0, w.lab, plant);
    OnlyIsSome(w.lab, e.lab, plant);
    OnlyIsSome(e.lab, n.lab, plant);
    OnlyIsSome(n.lab, s.lab, plant);
    FenceSet(m, m, x, y, plant + UpperToLower);
    FenceChain(m, m0, w.lab, e.lab, n.lab, s.lab);
    SameKept(m, m0, x as int - 1, y, plant);
    SameKept(m, w.lab, x + 1, y, plant);
    SameKept(m, e.lab, x, y as int - 1, plant);
    SameKept(m, n.lab, x, y + 1, plant);
  }

  // ---------------------------------------------------------------- fence edges

  /** The fence sides of cell `(x, y)` for `plant`: the directions whose neighbour is off the map or another plant. */
  function CellFence(m: seq<seq<int>>, x: nat, y: nat, plant: int): (c: nat)
    ensures c <= 4
  {
    (if Same(m, x as int - 1, y, plant) then 0 else 1)
    + (if Same(m, x + 1, y, plant) then 0 else 1)
    + (if Same(m, x, y as int - 1, plant) then 0 else 1)
    + (if Same(m, x, y + 1, plant) then 0 else 1)
  }

  predicate SameShape(a: seq<seq<int>>, b: seq<seq<int>>)
  {
    |a| == |b| && forall j :: 0 <= j < |a| ==> |a[j]| == |b[j]|
  }

  /** The fence sides of a cell that changed between `a` and `b`, counted for its plant in `a`; 0 for a cell that did not. */
  function FenceWeight(ref: seq<seq<int>>, a: seq<seq<int>>, b: seq<seq<int>>, x: nat, y: nat): nat
    requires SameShape(a, b) && InBounds(a, x, y)
  {
    if a[y][x] != b[y][x] then CellFence(ref, x, y, a[y][x]) else 0
  }

  function FenceRow(ref: seq<seq<int>>, a: seq<seq<int>>, b: seq<seq<int>>, y: nat, n: nat): nat
    requires SameShape(a, b) && y < |a| && n <= |a[y]|
  {
    if n == 0 then 0 else FenceRow(ref, a, b, y, n - 1) + FenceWeight(ref, a, b, n - 1, y)
  }

  function FenceRows(ref: seq<seq<int>>, a: seq<seq<int>>, b: seq<seq<int>>, k: nat): nat
    requires SameShape(a, b) && k <= |a|
  {
    if k == 0 then 0 else FenceRows(ref, a, b, k - 1) + FenceRow(ref, a, b, k - 1, |a[k - 1]|)
  }

  /**
   The fence sides of the cells marked between `a` and `b`: for each such
   cell, the directions whose neighbour in `ref` is off the map or another
   plant.
   */
  function FenceMarked(ref: seq<seq<int>>, a: seq<seq<int>>, b: seq<seq<int>>): nat
    requires SameShape(a, b)
  {
    FenceRows(ref, a, b, |a|)
  }

  /** Marking cells of other plants, or more cells of this one, does not change which neighbours are the same plant. */
  lemma SameKept(m: seq<seq<int>>, m': seq<seq<int>>, nx: int, ny: int, plant: int)
    requires MarksSome(m, m') && IsUpper(plant)
    ensures Same(m', nx, ny, plant) == Same(m, nx, ny, plant)
  {
  }

  lemma FenceKept(m: seq<seq<int>>, m': seq<seq<int>>, x: nat, y: nat, plant: int)
    requires MarksSome(m, m') && IsUpper(plant)
    ensures CellFence(m', x, y, plant) == CellFence(m, x, y, plant)
  {
    SameKept(m, m', x as int - 1, y, plant);
    SameKept(m, m', x + 1, y, plant);
    SameKept(m, m', x, y as int - 1, plant);
    SameKept(m, m', x, y + 1, plant);
  }

  lemma {:induction false} FenceRowAdd(ref: seq<seq<int>>, a: seq<seq<int>>, b: seq<seq<int>>, c: seq<seq<int>>, y: nat, n: nat)
    requires MarksSome(a, b) && MarksSome(b, c) && y < |a| && n <= |a[y]|
    ensures FenceRow(ref, a, c, y, n) == FenceRow(ref, a, b, y, n) + FenceRow(ref, b, c, y, n)
    decreases n
  {
    if n > 0 {
      FenceRowAdd(ref, a, b, c, y, n - 1);
    }
  }

  lemma {:induction false} FenceRowsAdd(ref: seq<seq<int>>, a: seq<seq<int>>, b: seq<seq<int>>, c: seq<seq<int>>, k: nat)
    requires MarksSome(a, b) && MarksSome(b, c) && k <= |a|
    ensures FenceRows(ref, a, c, k) == FenceRows(ref, a, b, k) + FenceRows(ref, b, c, k)
    decreases k
  {
    if k > 0 {
      FenceRowsAdd(ref, a, b, c, k - 1);
      FenceRowAdd(ref, a, b, c, k - 1, |a[k - 1]|);
    }
  }

  /** A cell marked on the way from `a` to `b` is not marked again on the way to `c`, so the fence sides add up. */
  lemma FenceAdd(ref: seq<seq<int>>, a: seq<seq<int>>, b: seq<seq<int>>, c: seq<seq<int>>)
    requires MarksSome(a, b) && MarksSome(b, c)
    ensures MarksSome(a, c)
    ensures FenceMarked(ref, a, c) == FenceMarked(ref, a, b) + FenceMarked(ref, b, c)
  {
    FenceRowsAdd(ref, a, b, c, |a|);
  }

  lemma {:induction false} FenceRowRef(r1: seq<seq<int>>, r2: seq<seq<int>>, a: seq<seq<int>>, b: seq<seq<int>>, y: nat, n: nat)
    requires MarksSome(r1, r2) && MarksSome(a, b) && y < |a| && n <= |a[y]|
    ensures FenceRow(r2, a, b, y, n) == FenceRow(r1, a, b, y, n)
    decreases n
  {
    if n > 0 {
      FenceRowRef(r1, r2, a, b, y, n - 1);
      if a[y][n - 1] != b[y][n - 1] {
        FenceKept(r1, r2, n - 1, y, a[y][n - 1]);
      }
    }
  }

  lemma {:induction false} FenceRowsRef(r1: seq<seq<int>>, r2: seq<seq<int>>, a: seq<seq<int>>, b: seq<seq<int>>, k: nat)
    requires MarksSome(r1, r2) && MarksSome(a, b) && k <= |a|
    ensures FenceRows(r2, a, b, k) == FenceRows(r1, a, b, k)
    decreases k
  {
    if k > 0 {
      FenceRowsRef(r1, r2, a, b, k - 1);
      FenceRowRef(r1, r2, a, b, k - 1, |a[k - 1]|);
    }
  }

  /** Counting fence sides on a map with more cells marked gives the same count. */
  lemma FenceRef(r1: seq<seq<int>>, r2: seq<seq<int>>, a: seq<seq<int>>, b: seq<seq<int>>)
    requires MarksSome(r1, r2) && MarksSome(a, b)
    ensures FenceMarked(r2, a, b) == FenceMarked(r1, a, b)
  {
    FenceRowsRef(r1, r2, a, b, |a|);
  }

  lemma {:induction false} FenceRowSet(ref: seq<seq<int>>, m: seq<seq<int>>, x: nat, y: nat, v: int, j: nat, n: nat)
    requires InBounds(m, x, y) && j < |m| && n <= |m[j]|
    ensures SameShape(m, Set(m, x, y, v))
    ensures FenceRow(ref, m, Set(m, x, y, v), j, n)
            == if j == y && x < n && v != m[y][x] then CellFence(ref, x, y, m[y][x]) else 0
    decreases n
  {
    if n > 0 {
      FenceRowSet(ref, m, x, y, v, j, n - 1);
    }
  }

  lemma {:induction false} FenceRowsSet(ref: seq<seq<int>>, m: seq<seq<int>>, x: nat, y: nat, v: int, k: nat)
    requires InBounds(m, x, y) && k <= |m|
    ensures SameShape(m, Set(m, x, y, v))
    ensures FenceRows(ref, m, Set(m, x, y, v), k) == if y < k && v != m[y][x] then CellFence(ref, x, y, m[y][x]) else 0
    decreases k
  {
    if k > 0 {
      FenceRowsSet(ref, m, x, y, v, k - 1);
      FenceRowSet(ref, m, x, y, v, k - 1, |m[k - 1]|);
    }
  }

  /** Marking one cell adds exactly that cell's fence sides. */
  lemma FenceSet(ref: seq<seq<int>>, m: seq<seq<int>>, x: nat, y: nat, v: int)
    requires InBounds(m, x, y) && v != m[y][x]
    ensures SameShape(m, Set(m, x, y, v))
    ensures FenceMarked(ref, m, Set(m, x, y, v)) == CellFence(ref, x, y, m[y][x])
  {
    FenceRowsSet(ref, m, x, y, v, |m|);
  }

  lemma {:induction false} FenceRowNone(ref: seq<seq<int>>, m: seq<seq<int>>, y: nat, n: nat)
    requires y < |m| && n <= |m[y]|
    ensures FenceRow(ref, m, m, y, n) == 0
    decreases n
  {
    if n > 0 {
      FenceRowNone(ref, m, y, n - 1);
    }
  }

  lemma {:induction false} FenceRowsNone(ref: seq<seq<int>>, m: seq<seq<int>>, k: nat)
    requires k <= |m|
    ensures FenceRows(ref, m, m, k) == 0
    decreases k
  {
    if k > 0 {
      FenceRowsNone(ref, m, k - 1);
      FenceRowNone(ref, m, k - 1, |m[k - 1]|);
    }
  }

  /** Marking nothing adds no fence sides. */
  lemma FenceNone(ref: seq<seq<int>>, m: seq<seq<int>>)
    ensures FenceMarked(ref, m, m) == 0
  {
    FenceRowsNone(ref, m, |m|);
  }

  function MapFenceRow(m: seq<seq<int>>, y: nat, n: nat): nat
    requires y < |m| && n <= |m[y]|
  {
    if n == 0 then 0 else MapFenceRow(m, y, n - 1) + CellFence(m, n - 1, y, m[y][n - 1])
  }

  function MapFenceRows(m: seq<seq<int>>, k: nat): nat
    requires k <= |m|
  {
    if k == 0 then 0 else MapFenceRows(m, k - 1) + MapFenceRow(m, k - 1, |m[k - 1]|)
  }

  /**
   The fence of the whole map: over every cell, the directions whose
   neighbour is off the map or holds another plant.
   */
  function MapFence(m: seq<seq<int>>): nat
  {
    MapFenceRows(m, |m|)
  }

  lemma {:induction false} FenceRowAll(a: seq<seq<int>>, b: seq<seq<int>>, y: nat, n: nat)
    requires SameShape(a, b) && y < |a| && n <= |a[y]|
    requires forall i :: 0 <= i < n ==> a[y][i] != b[y][i]
    ensures FenceRow(a, a, b, y, n) == MapFenceRow(a, y, n)
    decreases n
  {
    if n > 0 {
      FenceRowAll(a, b, y, n - 1);
    }
  }

  lemma {:induction false} FenceRowsAll(a: seq<seq<int>>, b: seq<seq<int>>, k: nat)
    requires SameShape(a, b) && k <= |a|
    requires forall j, i :: 0 <= j < k && 0 <= i < |a[j]| ==> a[j][i] != b[j][i]
    ensures FenceRows(a, a, b, k) == MapFenceRows(a, k)
    decreases k
  {
    if k > 0 {
      FenceRowsAll(a, b, k - 1);
      FenceRowAll(a, b, k - 1, |a[k - 1]|);
    }
  }

  /** When every cell is marked, the marked cells' fence is the whole map's fence. */
  lemma FenceAll(a: seq<seq<int>>, b: seq<seq<int>>)
    requires SameShape(a, b)
    requires forall j, i :: 0 <= j < |a| && 0 <= i < |a[j]| ==> a[j][i] != b[j][i]
    ensures FenceMarked(a, a, b) == MapFence(a)
  {
    FenceRowsAll(a, b, |a|);
  }

  // ---------------------------------------------------------------- all groups

  function AreaSum(groups: seq<Group>): nat
  {
    if |groups| == 0 then 0 else groups[0].area + AreaSum(groups[1..])
  }

  lemma {:induction false} AreaSumAppend(a: seq<Group>, b: seq<Group>)
    ensures AreaSum(a + b) == AreaSum(a) + AreaSum(b)
    decreases |a|
  {
    if |a| == 0 {
      assert a + b == b;
    } else {
      assert (a + b)[1..] == a[1..] + b;
      AreaSumAppend(a[1..], b);
    }
  }

  /** The fence edges of a list of groups, added up. */
  function EdgeSum(groups: seq<Group>): nat
  {
    if |groups| == 0 then 0 else groups[0].edges + EdgeSum(groups[1..])
  }

  lemma {:induction false} EdgeSumAppend(a: seq<Group>, b: seq<Group>)
    ensures EdgeSum(a + b) == EdgeSum(a) + EdgeSum(b)
    decreases |a|
  {
    if |a| == 0 {
      assert a + b == b;
    } else {
      assert (a + b)[1..] == a[1..] + b;
      EdgeSumAppend(a[1..], b);
    }
  }

  /** Every group holds at least one cell, and at most four edges and four corners per cell. */
  predicate Bounded(groups: seq<Group>)
  {
    forall k :: 0 <= k < |groups| ==>
      1 <= groups[k].area && groups[k].edges <= 4 * groups[k].area && |groups[k].corners| <= 4 * groups[k].area
  }

  /** A bounded group in front of bounded groups. */
  lemma BoundedCons(g: Group, groups: seq<Group>)
    requires 1 <= g.area && g.edges <= 4 * g.area && |g.corners| <= 4 * g.area && Bounded(groups)
    ensures Bounded([g] + groups) && AreaSum([g] + groups) == g.area + AreaSum(groups)
  {
    assert ([g] + groups)[1..] == groups;
    forall k | 1 <= k < |[g] + groups|
      ensures ([g] + groups)[k] == groups[k - 1]
    {
    }
  }

  /** A fill from a well-formed map marks only unvisited cells. */
  lemma OnlyIsSome(m: seq<seq<int>>, m': seq<seq<int>>, plant: int)
    requires MarksOnly(m, m', plant) && IsUpper(plant)
    ensures MarksSome(m, m')
  {
  }

  /** A counted cell stays counted. */
  lemma KeepsLower(m: seq<seq<int>>, m': seq<seq<int>>, x: nat, y: nat)
    requires MarksSome(m, m') && InBounds(m, x, y) && IsLower(m[y][x])
    ensures IsLower(m'[y][x])
  {
  }

  /** Counted cells of row `y` from column `x` on. */
  predicate RowDone(m: seq<seq<int>>, y: nat, x: nat)
    requires y < |m|
  {
    forall i :: x <= i < |m[y]| ==> IsLower(m[y][i])
  }

  /** Counted cells of every row from `y` on. */
  predicate RowsDone(m: seq<seq<int>>, y: nat)
  {
    forall j, i :: y <= j < |m| && 0 <= i < |m[j]| ==> IsLower(m[j][i])
  }

  /** Cells `x..` of row `y`, in order: each unvisited one starts a new group. */
  function FindRow(m: seq<seq<int>>, y: nat, x: nat): (r: (seq<Group>, seq<seq<int>>))
    requires Marking(m) && y < |m| && x <= |m[0]|
    ensures Marking(r.1) && MarksSome(m, r.1) && RowDone(r.1, y, x)
    ensures Bounded(r.0)
    ensures AreaSum(r.0) == CountCells(m, Unmarked) - CountCells(r.1, Unmarked)
    ensures SameShape(m, r.1) && EdgeSum(r.0) == FenceMarked(m, m, r.1)
    decreases |m[0]| - x
  {
    if x == |m[0]| then
      FenceNone(m, m);
      ([], m)
    else if Unmarked(m[y][x]) then
      var e := ExploreGroup(m, x, y);
      var rest := FindRow(e.lab, y, x + 1);
      FoundGroup(m, e, rest.0, rest.1, x, y);
      ([e.group] + rest.0, rest.1)
    else
      var rest := FindRow(m, y, x + 1);
      KeepsLower(m, rest.1, x, y);
      rest
  }

  /** A group found at `(x, y)` followed by the rest of the row's groups. */
  lemma FoundGroup(m: seq<seq<int>>, e: Explored, groups: seq<Group>, lab: seq<seq<int>>, x: nat, y: nat)
    requires Marking(m) && InBounds(m, x, y) && IsUpper(m[y][x])
    requires MarksOnly(m, e.lab, m[y][x]) && IsLower(e.lab[y][x])
    requires 1 <= e.group.area == CountCells(m, Unmarked) - CountCells(e.lab, Unmarked)
    requires e.group.edges <= 4 * e.group.area && |e.group.corners| <= 4 * e.group.area
    requires SameShape(m, e.lab) && e.group.edges == FenceMarked(m, m, e.lab)
    requires Marking(e.lab) && MarksSome(e.lab, lab) && RowDone(lab, y, x + 1) && Bounded(groups)
    requires AreaSum(groups) == CountCells(e.lab, Unmarked) - CountCells(lab, Unmarked)
    requires EdgeSum(groups) == FenceMarked(e.lab, e.lab, lab)
    ensures MarksSome(m, lab) && RowDone(lab, y, x) && Bounded([e.group] + groups)
    ensures AreaSum([e.group] + groups) == CountCells(m, Unmarked) - CountCells(lab, Unmarked)
    ensures SameShape(m, lab) && EdgeSum([e.group] + groups) == FenceMarked(m, m, lab)
  {
    OnlyIsSome(m, e.lab, m[y][x]);
    KeepsLower(e.lab, lab, x, y);
    MarksSomeTrans(m, e.lab, lab);
    BoundedCons(e.group, groups);
    FenceRef(m, e.lab, e.lab, lab);
    FenceAdd(m, m, e.lab, lab);
    assert ([e.group] + groups)[1..] == groups;
  }

  /** Later rows leave earlier rows' counted cells counted. */
  lemma KeepsRows(m: seq<seq<int>>, m': seq<seq<int>>, y: nat)
    requires MarksSome(m, m') && y < |m| && RowDone(m, y, 0) && RowsDone(m', y + 1)
    ensures RowsDone(m', y)
  {
  }

  /** Rows `y..` in order. */
  function FindRows(m: seq<seq<int>>, y: nat): (r: (seq<Group>, seq<seq<int>>))
    requires Marking(m) && y <= |m|
    ensures Marking(r.1) && MarksSome(m, r.1) && RowsDone(r.1, y)
    ensures Bounded(r.0)
    ensures AreaSum(r.0) == CountCells(m, Unmarked) - CountCells(r.1, Unmarked)
    ensures SameShape(m, r.1) && EdgeSum(r.0) == FenceMarked(m, m, r.1)
    decreases |m| - y
  {
    if y == |m| then
      FenceNone(m, m);
      ([], m)
    else
      var row := FindRow(m, y, 0);
      var rest := FindRows(row.1, y + 1);
      MarksSomeTrans(m, row.1, rest.1);
      KeepsRows(row.1, rest.1, y);
      AreaSumAppend(row.0, rest.0);
      EdgeSumAppend(row.0, rest.0);
      FenceRef(m, row.1, row.1, rest.1);
      FenceAdd(m, m, row.1, rest.1);
      (row.0 + rest.0, rest.1)
  }

  /**
   All groups of a map, in the order their first cell is met scanning row by
   row: afterwards every cell is counted, and the areas add up to the number
   of cells that were unvisited.
   */
  function FindGroups(m: seq<seq<int>>): (r: (seq<Group>, seq<seq<int>>))
    requires |m| == 0 || Marking(m)
    ensures Bounded(r.0)
    ensures |m| > 0 ==> Marking(r.1) && MarksSome(m, r.1)
    ensures RowsDone(r.1, 0)
    ensures AreaSum(r.0) == CountCells(m, Unmarked)
    ensures SameShape(m, r.1) && EdgeSum(r.0) == FenceMarked(m, m, r.1)
  {
    if |m| == 0 then
      FenceNone(m, m);
      ([], m)
    else
      var r := FindRows(m, 0);
      CountCellsNone(r.1, Unmarked);
      r
  }

  /** On a freshly loaded map every cell is unvisited, so the groups tile the whole map. */
  lemma GroupsCoverMap(m: seq<seq<int>>)
    requires |m| == 0 || Marking(m)
    requires forall j, i :: 0 <= j < |m| && 0 <= i < |m[j]| ==> IsUpper(m[j][i])
    ensures AreaSum(FindGroups(m).0) == Cells(m)
  {
    CountCellsAll(m, Unmarked);
  }

  /**
   On a freshly loaded map the groups' edges add up to the fence of the whole
   map: every cell's sides that face the border or another plant.
   */
  lemma GroupsFenceMap(m: seq<seq<int>>)
    requires |m| == 0 || Marking(m)
    requires forall j, i :: 0 <= j < |m| && 0 <= i < |m[j]| ==> IsUpper(m[j][i])
    ensures EdgeSum(FindGroups(m).0) == MapFence(m)
  {
    var r := FindGroups(m);
    forall j, i | 0 <= j < |m| && 0 <= i < |m[j]| ensures m[j][i] != r.1[j][i] {
      assert IsLower(r.1[j][i]);
    }
    FenceAll(m, r.1);
  }

  // ---------------------------------------------------------------- prices

  /**
   Part one: each group costs its area times its fence edges. Every group's
   cost is part of the price, which is 0 exactly when every group has no area
   or no edges.
   */
  function Price(groups: seq<Group>): (price: nat)
    ensures forall k :: 0 <= k < |groups| ==> groups[k].area * groups[k].edges <= price
    ensures price == 0 <==> forall k :: 0 <= k < |groups| ==> groups[k].area == 0 || groups[k].edges == 0
    decreases |groups|
  {
    if |groups| == 0 then 0
    else
      var rest := Price(groups[1..]);
      assert forall k :: 1 <= k < |groups| ==> groups[k] == groups[1..][k - 1];
      ZeroProduct(groups[0].area, groups[0].edges);
      groups[0].area * groups[0].edges + rest
  }

  /**
   Part two: each group costs its area times its number of sides, counted as
   corners. Every group's cost is part of the price, which is 0 exactly when
   every group has no area or no corners.
   */
  function DiscountedPrice(groups: seq<Group>): (price: nat)
    ensures forall k :: 0 <= k < |groups| ==> groups[k].area * |groups[k].corners| <= price
    ensures price == 0 <==> forall k :: 0 <= k < |groups| ==> groups[k].area == 0 || |groups[k].corners| == 0
    decreases |groups|
  {
    if |groups| == 0 then 0
    else
      var rest := DiscountedPrice(groups[1..]);
      assert forall k :: 1 <= k < |groups| ==> groups[k] == groups[1..][k - 1];
      ZeroProduct(groups[0].area, |groups[0].corners|);
      groups[0].area * |groups[0].corners| + rest
  }

  lemma ZeroProduct(a: nat, b: nat)
    ensures a * b == 0 <==> a == 0 || b == 0
  {
    if a > 0 && b > 0 {
      assert a * b >= b;
    }
  }

  function AreaSquares(groups: seq<Group>): nat
  {
    if |groups| == 0 then 0 else groups[0].area * groups[0].area + AreaSquares(groups[1..])
  }

  /** One group's two prices are each at most four times its area squared. */
  lemma GroupPriceBound(g: Group)
    requires g.edges <= 4 * g.area && |g.corners| <= 4 * g.area
    ensures g.area * g.edges <= 4 * (g.area * g.area)
    ensures g.area * |g.corners| <= 4 * (g.area * g.area)
  {
    assert g.area * (4 * g.area) == 4 * (g.area * g.area);
    MulLe(g.area, g.edges, 4 * g.area);
    MulLe(g.area, |g.corners|, 4 * g.area);
  }

  lemma MulLe(a: nat, b: nat, c: nat)
    requires b <= c
    ensures a * b <= a * c
  {
  }

  /** Each group costs at most four times its area squared, with or without the discount. */
  lemma {:induction false} PriceBounds(groups: seq<Group>)
    requires Bounded(groups)
    ensures Price(groups) <= 4 * AreaSquares(groups)
    ensures DiscountedPrice(groups) <= 4 * AreaSquares(groups)
    decreases |groups|
  {
    if |groups| > 0 {
      assert Bounded(groups[1..]) by {
        forall k | 0 <= k < |groups[1..]| ensures groups[1..][k] == groups[k + 1] { }
      }
      PriceBounds(groups[1..]);
      GroupPriceBound(groups[0]);
    }
  }

  /** Part one's answer for a freshly loaded map. */
  function TotalFencingPrice(m: seq<seq<int>>): (price: nat)
    requires |m| == 0 || Marking(m)
    ensures price <= 4 * AreaSquares(FindGroups(m).0)
  {
    PriceBounds(FindGroups(m).0);
    Price(FindGroups(m).0)
  }

  /** Part two's answer for a freshly loaded map. */
  function DiscountedFencingPrice(m: seq<seq<int>>): (price: nat)
    requires |m| == 0 || Marking(m)
    ensures price <= 4 * AreaSquares(FindGroups(m).0)
  {
    PriceBounds(FindGroups(m).0);
    DiscountedPrice(FindGroups(m).0)
  }
}
