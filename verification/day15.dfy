/**
 Day 15: a robot pushing cartons around a warehouse. Each instruction moves the
 robot one cell if the row of cartons in front of it can move; a push moves
 every carton of that row one cell. In the wide warehouse every cell is two
 cells across, and a carton is a left half and a right half that move together.
 */
module Day15 {
  import opened Common
  import opened Grid

  datatype MapItem = Robot | Wall | Carton | CartonL | CartonR | Nothing

  datatype Instruction = Up | Down | Left | Right

  type Warehouse = seq<seq<MapItem>>

  // ---------------------------------------------------------------- loading

  /** The character each item is drawn with. */
  function Symbol(item: MapItem): char
  {
    match item
    case Robot => '@'
    case Wall => '#'
    case Carton => 'O'
    case CartonL => '['
    case CartonR => ']'
    case Nothing => '.'
  }

  /** The item a map character stands for; the source panics on anything else. */
  function ParseItem(c: char): (r: Option<MapItem>)
    ensures r.Some? ==> Symbol(r.value) == c && r.value != CartonL && r.value != CartonR
  {
    match c
    case '#' => Some(Wall)
    case '@' => Some(Robot)
    case 'O' => Some(Carton)
    case '.' => Some(Nothing)
    case _ => None
  }

  /** The pair of cells an item becomes in the wide warehouse. */
  function Widen(item: MapItem): (pair: (MapItem, MapItem))
    requires item != CartonL && item != CartonR
    ensures pair.0 == (if item == Carton then CartonL else item)
    ensures pair.1 == Nothing || pair.1 == CartonR || pair.1 == Wall
    ensures pair.1 == Wall <==> item == Wall
    ensures pair.1 == CartonR <==> item == Carton
  {
    match item
    case Robot => (Robot, Nothing)
    case Wall => (Wall, Wall)
    case Carton => (CartonL, CartonR)
    case Nothing => (Nothing, Nothing)
  }

  /** One map line read into a row of items: twice as long in wide mode, None if a character is unknown. */
  function LoadRow(line: string, wide: bool): (r: Option<seq<MapItem>>)
    ensures r.Some? <==> forall i :: 0 <= i < |line| ==> ParseItem(line[i]).Some?
    ensures r.Some? && !wide ==>
      |r.value| == |line| && forall i :: 0 <= i < |line| ==> ParseItem(line[i]) == Some(r.value[i])
    ensures r.Some? && wide ==>
      |r.value| == 2 * |line| &&
      forall i :: 0 <= i < |line| ==> Widen(ParseItem(line[i]).value) == (r.value[2 * i], r.value[2 * i + 1])
    decreases |line|
  {
    if |line| == 0 then Some([])
    else
      var n := |line| - 1;
      match (LoadRow(line[..n], wide), ParseItem(line[n]))
      case (Some(front), Some(item)) =>
        var pair := Widen(item);
        Some(if wide then front + [pair.0, pair.1] else front + [item])
      case _ => None
  }

  /** Conversely, a narrow row that matches the line cell by cell is what loading the line gives. */
  lemma LoadRowNarrow(line: string, items: seq<MapItem>)
    requires |items| == |line| && forall i :: 0 <= i < |line| ==> ParseItem(line[i]) == Some(items[i])
    ensures LoadRow(line, false) == Some(items)
  {
    var r := LoadRow(line, false);
    assert forall i :: 0 <= i < |line| ==> r.value[i] == items[i];
    assert r.value == items;
  }

  /** Every map line read into a row; None if any line has an unknown character. */
  function LoadRows(lines: seq<string>, wide: bool): (r: Option<Warehouse>)
    ensures r.Some? <==> forall j :: 0 <= j < |lines| ==> LoadRow(lines[j], wide).Some?
    ensures r.Some? ==> |r.value| == |lines| && forall j :: 0 <= j < |lines| ==> LoadRow(lines[j], wide) == Some(r.value[j])
    decreases |lines|
  {
    if |lines| == 0 then Some([])
    else
      var n := |lines| - 1;
      match (LoadRows(lines[..n], wide), LoadRow(lines[n], wide))
      case (Some(front), Some(row)) => Some(front + [row])
      case _ => None
  }

  /** Rows that are each what their line loads to are what the lines load to. */
  lemma LoadRowsExact(lines: seq<string>, items: Warehouse, wide: bool)
    requires |items| == |lines| && forall j :: 0 <= j < |lines| ==> LoadRow(lines[j], wide) == Some(items[j])
    ensures LoadRows(lines, wide) == Some(items)
  {
    var r := LoadRows(lines, wide);
    assert forall j :: 0 <= j < |lines| ==> r.value[j] == items[j];
    assert r.value == items;
  }

  /** The column of the last robot in a line. */
  function RobotInLine(line: string): (r: Option<nat>)
    ensures r.Some? ==> r.value < |line| && line[r.value] == '@' && forall i :: r.value < i < |line| ==> line[i] != '@'
    ensures r.None? ==> forall i :: 0 <= i < |line| ==> line[i] != '@'
    decreases |line|
  {
    if |line| == 0 then None
    else if line[|line| - 1] == '@' then Some(|line| - 1)
    else RobotInLine(line[..|line| - 1])
  }

  /** A robot with no robot after it in its line is the one found. */
  lemma RobotInLineExact(line: string, x: nat)
    requires x < |line| && line[x] == '@' && forall i :: x < i < |line| ==> line[i] != '@'
    ensures RobotInLine(line) == Some(x)
  {
  }

  /** The last robot in reading order, as `(x, y)`: the one whose position the source keeps. */
  function RobotIn(lines: seq<string>): (r: Option<(nat, nat)>)
    ensures r.Some? ==> r.value.1 < |lines| && r.value.0 < |lines[r.value.1]| && lines[r.value.1][r.value.0] == '@'
    ensures r.Some? ==> forall i :: r.value.0 < i < |lines[r.value.1]| ==> lines[r.value.1][i] != '@'
    ensures r.Some? ==> forall j, i :: r.value.1 < j < |lines| && 0 <= i < |lines[j]| ==> lines[j][i] != '@'
    ensures r.None? ==> forall j, i :: 0 <= j < |lines| && 0 <= i < |lines[j]| ==> lines[j][i] != '@'
    decreases |lines|
  {
    if |lines| == 0 then None
    else
      var y := |lines| - 1;
      match RobotInLine(lines[y])
      case Some(x) => Some((x, y))
      case None =>
        var front := lines[..y];
        assert forall j :: 0 <= j < y ==> front[j] == lines[j];
        RobotIn(front)
  }

  function ParseInstruction(c: char): (r: Option<Instruction>)
  {
    match c
    case '^' => Some(Up)
    case '>' => Some(Right)
    case 'v' => Some(Down)
    case '<' => Some(Left)
    case _ => None
  }

  /** The character each instruction is written with. */
  function InstructionSymbol(d: Instruction): char
  {
    match d
    case Up => '^'
    case Down => 'v'
    case Left => '<'
    case Right => '>'
  }

  /** The instructions, with line breaks skipped; None if another character appears. */
  function ParseInstructions(text: string): (r: Option<seq<Instruction>>)
    ensures r.Some? <==> forall i :: 0 <= i < |text| && text[i] != '\n' ==> ParseInstruction(text[i]).Some?
    ensures r.Some? ==> |r.value| <= |text|
    decreases |text|
  {
    if |text| == 0 then Some([])
    else
      var rest := ParseInstructions(text[1..]);
      if text[0] == '\n' then rest
      else match (ParseInstruction(text[0]), rest)
        case (Some(d), Some(ds)) => Some([d] + ds)
        case _ => None
  }

  /** Text without line breaks in which every character is an instruction reads as exactly those instructions. */
  lemma {:induction false} ParseInstructionsExact(text: string, instructions: seq<Instruction>)
    requires |text| == |instructions|
    requires forall i :: 0 <= i < |text| ==> ParseInstruction(text[i]) == Some(instructions[i])
    ensures ParseInstructions(text) == Some(instructions)
    decreases |text|
  {
    if |text| > 0 {
      ParseInstructionsExact(text[1..], instructions[1..]);
      assert instructions == [instructions[0]] + instructions[1..];
    }
  }

  /** The instructions written out, one character each. */
  function Render(instructions: seq<Instruction>): (text: string)
    ensures |text| == |instructions|
    ensures forall i :: 0 <= i < |text| ==> text[i] == InstructionSymbol(instructions[i])
  {
    if |instructions| == 0 then [] else [InstructionSymbol(instructions[0])] + Render(instructions[1..])
  }

  /** Written-out instructions read back as the same instructions. */
  lemma {:induction false} ParseRender(instructions: seq<Instruction>)
    ensures ParseInstructions(Render(instructions)) == Some(instructions)
    decreases |instructions|
  {
    if |instructions| > 0 {
      var text := Render(instructions);
      assert text[1..] == Render(instructions[1..]);
      ParseRender(instructions[1..]);
      assert instructions == [instructions[0]] + instructions[1..];
    }
  }

  /** A line break anywhere in the instruction text changes nothing. */
  lemma {:induction false} ParseSkipsBreaks(a: string, b: string)
    ensures ParseInstructions(a + "\n" + b) == ParseInstructions(a + b)
    decreases |a|
  {
    if |a| == 0 {
      assert a + "\n" + b == "\n" + b && ("\n" + b)[1..] == b && a + b == b;
    } else {
      assert (a + "\n" + b)[1..] == a[1..] + "\n" + b;
      assert (a + b)[1..] == a[1..] + b;
      assert (a + "\n" + b)[0] == a[0] == (a + b)[0];
      ParseSkipsBreaks(a[1..], b);
    }
  }

  /** The robot's position, the warehouse and the instructions, as loaded. */
  datatype Loaded = Loaded(x: nat, y: nat, items: Warehouse, instructions: seq<Instruction>)

  /**
   The map lines and the instruction text, already separated at the blank line.
   None where the source panics: an unknown character or no robot.
   */
  function LoadData(mapLines: seq<string>, instructionText: string, wide: bool): (r: Option<Loaded>)
    ensures r.Some? <==>
      LoadRows(mapLines, wide).Some? && RobotIn(mapLines).Some? && ParseInstructions(instructionText).Some?
    ensures r.Some? ==>
      var (rx, ry) := RobotIn(mapLines).value;
      r.value.y == ry && r.value.x == (if wide then 2 * rx else rx) &&
      InBounds(r.value.items, r.value.x, r.value.y) && r.value.items[r.value.y][r.value.x] == Robot
    ensures r.Some? ==> Some(r.value.items) == LoadRows(mapLines, wide)
    ensures r.Some? ==> Some(r.value.instructions) == ParseInstructions(instructionText)
  {
    match (LoadRows(mapLines, wide), RobotIn(mapLines), ParseInstructions(instructionText))
    case (Some(items), Some((rx, ry)), Some(instructions)) =>
      assert LoadRow(mapLines[ry], wide) == Some(items[ry]);
      assert ParseItem(mapLines[ry][rx]) == Some(Robot);
      Some(Loaded(if wide then 2 * rx else rx, ry, items, instructions))
    case _ => None
  }

  // ---------------------------------------------------------------- movement

  predicate Vertical(d: Instruction)
  {
    d == Up || d == Down
  }

  /** The neighbouring cell in direction `d`. */
  function Next(x: int, y: int, d: Instruction): (n: (int, int))
    ensures Vertical(d) ==> n.0 == x && (n.1 == y - 1 || n.1 == y + 1)
    ensures !Vertical(d) ==> n.1 == y && (n.0 == x - 1 || n.0 == x + 1)
  {
    match d
    case Up => (x, y - 1)
    case Down => (x, y + 1)
    case Left => (x - 1, y)
    case Right => (x + 1, y)
  }

  /** How many cells lie ahead of `(x, y)` in direction `d`: what every push uses up. */
  function Progress(m: Warehouse, x: int, y: int, d: Instruction): int
    requires 0 <= y < |m|
  {
    match d
    case Up => y
    case Down => |m| - y
    case Left => x
    case Right => |m[y]| - x
  }

  /** Cell `(i, j)` lies behind `(x, y)` when looking in direction `d`. */
  predicate Behind(d: Instruction, x: int, y: int, i: int, j: int)
  {
    match d
    case Up => j > y
    case Down => j < y
    case Left => i > x
    case Right => i < x
  }

  /** Both grids have the same rows, each of the same length. */
  predicate SameShape(m: Warehouse, r: Warehouse)
  {
    |r| == |m| && forall j :: 0 <= j < |m| ==> |r[j]| == |m[j]|
  }

  /**
   Whether the item at `(x, y)` can move one cell in direction `d`: the cell
   ahead is free, or holds a carton that can itself move; a wide carton pushed
   up or down needs its other half to move too. A neighbour off the map counts
   as blocked (the source would index out of range there).
   */
  function CanMove(m: Warehouse, x: nat, y: nat, d: Instruction): (r: bool)
    requires InBounds(m, x, y)
    ensures r ==> InBounds(m, Next(x, y, d).0, Next(x, y, d).1)
    ensures r ==> m[Next(x, y, d).1][Next(x, y, d).0] in {Nothing, Carton, CartonL, CartonR}
    decreases Progress(m, x, y, d)
  {
    var n := Next(x, y, d);
    if !InBounds(m, n.0, n.1) then false
    else
      var nx: nat, ny: nat := n.0, n.1;
      match m[ny][nx]
      case Nothing => true
      case Carton => CanMove(m, nx, ny, d)
      case CartonL =>
        CanMove(m, nx, ny, d) && (Vertical(d) ==> nx + 1 < |m[ny]| && CanMove(m, nx + 1, ny, d))
      case CartonR =>
        CanMove(m, nx, ny, d) && (Vertical(d) ==> nx >= 1 && CanMove(m, nx - 1, ny, d))
      case _ => false
  }

  /** How many cells hold item `k`. */
  function Tally(m: Warehouse, k: MapItem): nat
  {
    CountCells(m, (v: MapItem) => v == k)
  }

  /** The item at `(x, y)` moved into the free cell `(nx, ny)`, leaving `Nothing` behind. */
  function Swap(m: Warehouse, x: nat, y: nat, nx: nat, ny: nat): (r: Warehouse)
    requires InBounds(m, x, y) && InBounds(m, nx, ny) && (x, y) != (nx, ny) && m[ny][nx] == Nothing
    ensures SameShape(m, r)
    ensures r[ny][nx] == m[y][x] && r[y][x] == Nothing
    ensures forall j, i :: InBounds(m, i, j) && (i, j) != (x, y) && (i, j) != (nx, ny) ==> r[j][i] == m[j][i]
    ensures forall k :: Tally(r, k) == Tally(m, k)
  {
    var moved := Set(m, nx, ny, m[y][x]);
    var r := Set(moved, x, y, Nothing);
    forall k
      ensures Tally(r, k) == Tally(m, k)
    {
      CountCellsSet(m, nx, ny, m[y][x], (v: MapItem) => v == k);
      CountCellsSet(moved, x, y, Nothing, (v: MapItem) => v == k);
    }
    r
  }

  /** Every cell behind `(x, y)` in direction `d` holds the same item in `r` as in `m`. */
  ghost predicate KeepsBehind(m: Warehouse, r: Warehouse, d: Instruction, x: int, y: int)
    requires SameShape(m, r)
  {
    forall j, i :: InBounds(m, i, j) && Behind(d, x, y, i, j) ==> r[j][i] == m[j][i]
  }

  lemma KeepsBehindTrans(a: Warehouse, b: Warehouse, c: Warehouse, d: Instruction, x: int, y: int)
    requires SameShape(a, b) && SameShape(b, c) && KeepsBehind(a, b, d, x, y) && KeepsBehind(b, c, d, x, y)
    ensures SameShape(a, c) && KeepsBehind(a, c, d, x, y)
  {
  }

  /** What lies behind a cell also lies behind the cell before it, and, up or down, behind its row neighbours. */
  lemma KeepsBehindFrom(m: Warehouse, r: Warehouse, d: Instruction, x: int, y: int, x': int, y': int)
    requires SameShape(m, r) && KeepsBehind(m, r, d, x', y')
    requires (x', y') == Next(x, y, d) || (Vertical(d) && y' == y)
    ensures KeepsBehind(m, r, d, x, y)
  {
  }

  /** Moving the item at `(x, y)` ahead changes nothing behind it. */
  lemma SwapKeepsBehind(m: Warehouse, x: nat, y: nat, d: Instruction)
    requires InBounds(m, x, y) && InBounds(m, Next(x, y, d).0, Next(x, y, d).1)
    requires m[Next(x, y, d).1][Next(x, y, d).0] == Nothing
    ensures KeepsBehind(m, Swap(m, x, y, Next(x, y, d).0, Next(x, y, d).1), d, x, y)
  {
  }

  /**
   Push the item at `(x, y)` one cell in direction `d`: first whatever carton
   stands in the way (both halves of a wide carton when pushing up or down),
   then the item itself if the cell ahead has become free. Nothing behind the
   item changes.
   */
  function MoveItem(m: Warehouse, x: nat, y: nat, d: Instruction): (r: Warehouse)
    requires InBounds(m, x, y)
    ensures SameShape(m, r)
    ensures forall k :: Tally(r, k) == Tally(m, k)
    ensures KeepsBehind(m, r, d, x, y)
    decreases Progress(m, x, y, d)
  {
    var n := Next(x, y, d);
    if !InBounds(m, n.0, n.1) then m
    else
      var nx: nat, ny: nat := n.0, n.1;
      var pushed :=
        if m[ny][nx] == Carton then MoveItem(m, nx, ny, d)
        else if m[ny][nx] == CartonL then
          var first := MoveItem(m, nx, ny, d);
          if Vertical(d) && nx + 1 < |first[ny]| then
            (var second := MoveItem(first, nx + 1, ny, d);
             KeepsBehindFrom(first, second, d, nx, ny, nx + 1, ny);
             KeepsBehindTrans(m, first, second, d, nx, ny);
             second)
          else first
        else if m[ny][nx] == CartonR then
          var first := MoveItem(m, nx, ny, d);
          if Vertical(d) && nx >= 1 then
            (var second := MoveItem(first, nx - 1, ny, d);
             KeepsBehindFrom(first, second, d, nx, ny, nx - 1, ny);
             KeepsBehindTrans(m, first, second, d, nx, ny);
             second)
          else first
        else m;
      KeepsBehindFrom(m, pushed, d, x, y, nx, ny);
      if pushed[ny][nx] == Nothing then
        (SwapKeepsBehind(pushed, x, y, d);
         KeepsBehindTrans(m, pushed, Swap(pushed, x, y, nx, ny), d, x, y);
         Swap(pushed, x, y, nx, ny))
      else pushed
  }

  /** Pushing an item into a free cell swaps the two. */
  lemma PushIntoFree(m: Warehouse, x: nat, y: nat, d: Instruction)
    requires InBounds(m, x, y) && InBounds(m, Next(x, y, d).0, Next(x, y, d).1)
    requires m[Next(x, y, d).1][Next(x, y, d).0] == Nothing
    ensures MoveItem(m, x, y, d) == Swap(m, x, y, Next(x, y, d).0, Next(x, y, d).1)
  {
  }

  /** Pushing an item against a whole carton first pushes the carton; once that frees the cell, the item follows. */
  lemma PushCarton(m: Warehouse, x: nat, y: nat, d: Instruction)
    requires InBounds(m, x, y) && InBounds(m, Next(x, y, d).0, Next(x, y, d).1)
    requires m[Next(x, y, d).1][Next(x, y, d).0] == Carton
    requires MoveItem(m, Next(x, y, d).0, Next(x, y, d).1, d)[Next(x, y, d).1][Next(x, y, d).0] == Nothing
    ensures MoveItem(m, x, y, d) == Swap(MoveItem(m, Next(x, y, d).0, Next(x, y, d).1, d), x, y, Next(x, y, d).0, Next(x, y, d).1)
  {
  }

  // ---------------------------------------------------------------- the narrow warehouse

  /** A warehouse of whole cartons only, as loaded in narrow mode. */
  predicate Narrow(m: Warehouse)
  {
    forall j, i :: 0 <= j < |m| && 0 <= i < |m[j]| ==> m[j][i] != CartonL && m[j][i] != CartonR
  }

  /** Both grids have walls in exactly the same cells. */
  predicate WallsKept(m: Warehouse, r: Warehouse)
    requires SameShape(m, r)
  {
    forall j, i :: 0 <= j < |m| && 0 <= i < |m[j]| ==> (r[j][i] == Wall <==> m[j][i] == Wall)
  }

  /** Same counts of every item keep a warehouse narrow. */
  lemma NarrowByTally(m: Warehouse, r: Warehouse)
    requires Narrow(m) && SameShape(m, r)
    requires forall k :: Tally(r, k) == Tally(m, k)
    ensures Narrow(r)
  {
    CountCellsNone(m, (v: MapItem) => v == CartonL);
    CountCellsNone(m, (v: MapItem) => v == CartonR);
    forall j, i | 0 <= j < |r| && 0 <= i < |r[j]|
      ensures r[j][i] != CartonL && r[j][i] != CartonR
    {
      TallyPositive(r, i, j);
    }
  }

  lemma TallyPositive(m: Warehouse, x: nat, y: nat)
    requires InBounds(m, x, y)
    ensures Tally(m, m[y][x]) >= 1
  {
    CountCellsPositive(m, x, y, (v: MapItem) => v == m[y][x]);
  }

  /**
   In a narrow warehouse a push that can happen does happen: the item lands on
   the cell ahead and its own cell becomes free.
   */
  lemma {:induction false} NarrowMoveLands(m: Warehouse, x: nat, y: nat, d: Instruction)
    requires InBounds(m, x, y) && Narrow(m) && CanMove(m, x, y, d)
    ensures var n := Next(x, y, d);
      MoveItem(m, x, y, d)[n.1][n.0] == m[y][x] && MoveItem(m, x, y, d)[y][x] == Nothing
    decreases Progress(m, x, y, d)
  {
    var n := Next(x, y, d);
    var nx: nat, ny: nat := n.0, n.1;
    if m[ny][nx] == Carton {
      NarrowMoveLands(m, nx, ny, d);
    }
  }

  lemma WallsKeptTrans(a: Warehouse, b: Warehouse, c: Warehouse)
    requires SameShape(a, b) && SameShape(b, c) && WallsKept(a, b) && WallsKept(b, c)
    ensures SameShape(a, c) && WallsKept(a, c)
  {
  }

  /** Moving an item that is not a wall into a free cell keeps every wall. */
  lemma SwapKeepsWalls(m: Warehouse, x: nat, y: nat, nx: nat, ny: nat)
    requires InBounds(m, x, y) && InBounds(m, nx, ny) && (x, y) != (nx, ny) && m[ny][nx] == Nothing
    requires m[y][x] != Wall
    ensures WallsKept(m, Swap(m, x, y, nx, ny))
  {
  }

  /** A narrow push never creates, moves or removes a wall, provided the pushed item is not a wall. */
  lemma {:induction false} NarrowMoveKeepsWalls(m: Warehouse, x: nat, y: nat, d: Instruction)
    requires InBounds(m, x, y) && Narrow(m) && m[y][x] != Wall
    ensures WallsKept(m, MoveItem(m, x, y, d))
    decreases Progress(m, x, y, d)
  {
    var n := Next(x, y, d);
    if InBounds(m, n.0, n.1) {
      var nx: nat, ny: nat := n.0, n.1;
      assert m[ny][nx] != CartonL && m[ny][nx] != CartonR;
      var pushed := if m[ny][nx] == Carton then MoveItem(m, nx, ny, d) else m;
      assert MoveItem(m, x, y, d) == if pushed[ny][nx] == Nothing then Swap(pushed, x, y, nx, ny) else pushed;
      if m[ny][nx] == Carton {
        NarrowMoveKeepsWalls(m, nx, ny, d);
        assert Behind(d, nx, ny, x, y);
      }
      assert WallsKept(m, pushed) && pushed[y][x] == m[y][x];
      if pushed[ny][nx] == Nothing {
        SwapKeepsWalls(pushed, x, y, nx, ny);
        WallsKeptTrans(m, pushed, Swap(pushed, x, y, nx, ny));
      }
    }
  }

  // ---------------------------------------------------------------- following the instructions

  /** The robot's position and the warehouse between instructions. */
  datatype State = State(x: nat, y: nat, items: Warehouse)

  predicate Valid(s: State)
  {
    InBounds(s.items, s.x, s.y)
  }

  /** One instruction: the robot pushes and steps if it can, and otherwise nothing happens. */
  function Execute(s: State, d: Instruction): (r: State)
    requires Valid(s)
    ensures Valid(r) && SameShape(s.items, r.items)
    ensures !CanMove(s.items, s.x, s.y, d) ==> r == s
    ensures CanMove(s.items, s.x, s.y, d) ==> (r.x, r.y) == Next(s.x, s.y, d)
    ensures forall k :: Tally(r.items, k) == Tally(s.items, k)
  {
    if CanMove(s.items, s.x, s.y, d) then
      var n := Next(s.x, s.y, d);
      State(n.0, n.1, MoveItem(s.items, s.x, s.y, d))
    else s
  }

  /** All instructions in order. */
  function Follow(s: State, instructions: seq<Instruction>): (r: State)
    requires Valid(s)
    ensures Valid(r) && SameShape(s.items, r.items)
    ensures forall k :: Tally(r.items, k) == Tally(s.items, k)
    decreases |instructions|
  {
    if |instructions| == 0 then s else Follow(Execute(s, instructions[0]), instructions[1..])
  }

  /** How many single steps apart two robot positions are. */
  function Distance(a: State, b: State): nat
  {
    Abs(a.x - b.x) + Abs(a.y - b.y)
  }

  function Abs(v: int): nat
  {
    if v < 0 then -v else v
  }

  /** The robot takes one step per instruction at most. */
  lemma {:induction false} FollowStepBound(s: State, instructions: seq<Instruction>)
    requires Valid(s)
    ensures Distance(Follow(s, instructions), s) <= |instructions|
    decreases |instructions|
  {
    if |instructions| > 0 {
      var t := Execute(s, instructions[0]);
      assert Distance(t, s) <= 1;
      FollowStepBound(t, instructions[1..]);
      assert Follow(s, instructions) == Follow(t, instructions[1..]);
    }
  }

  /**
   In a narrow warehouse the robot stays where the coordinates say it is, the
   warehouse stays narrow and the walls stay put.
   */
  lemma NarrowExecute(s: State, d: Instruction)
    requires Valid(s) && Narrow(s.items) && s.items[s.y][s.x] == Robot
    ensures var r := Execute(s, d);
      Narrow(r.items) && r.items[r.y][r.x] == Robot && WallsKept(s.items, r.items)
  {
    var r := Execute(s, d);
    NarrowByTally(s.items, r.items);
    if CanMove(s.items, s.x, s.y, d) {
      NarrowMoveLands(s.items, s.x, s.y, d);
      NarrowMoveKeepsWalls(s.items, s.x, s.y, d);
    }
  }

  lemma {:induction false} NarrowFollow(s: State, instructions: seq<Instruction>)
    requires Valid(s) && Narrow(s.items) && s.items[s.y][s.x] == Robot
    ensures var r := Follow(s, instructions);
      Narrow(r.items) && r.items[r.y][r.x] == Robot && WallsKept(s.items, r.items)
    decreases |instructions|
  {
    if |instructions| > 0 {
      var t := Execute(s, instructions[0]);
      NarrowExecute(s, instructions[0]);
      NarrowFollow(t, instructions[1..]);
    }
  }

  // ---------------------------------------------------------------- GPS coordinates

  /** What one cell adds to the GPS sum: `100 * y + x` for a carton or a carton's left half. */
  function Weight(item: MapItem, x: nat, y: nat): nat
  {
    if item == Carton || item == CartonL then 100 * y + x else 0
  }

  /** GPS sum over the first `n` cells of row `y`. */
  function GpsRow(row: seq<MapItem>, y: nat, n: nat): nat
    requires n <= |row|
  {
    if n == 0 then 0 else GpsRow(row, y, n - 1) + Weight(row[n - 1], n - 1, y)
  }

  /** GPS sum over the first `k` rows. */
  function GpsRows(m: Warehouse, k: nat): nat
    requires k <= |m|
  {
    if k == 0 then 0 else GpsRows(m, k - 1) + GpsRow(m[k - 1], k - 1, |m[k - 1]|)
  }

  /**
   The GPS sum of the warehouse. Every carton, or left half of a wide carton,
   adds its own weight `100 * y + x`, and the sum is 0 exactly when every
   weight is 0, that is, when no carton stands anywhere but the top-left corner.
   */
  function Gps(m: Warehouse): (n: nat)
    ensures forall j, i :: 0 <= j < |m| && 0 <= i < |m[j]| ==> Weight(m[j][i], i, j) <= n
    ensures n == 0 <==> forall j, i :: 0 <= j < |m| && 0 <= i < |m[j]| ==> Weight(m[j][i], i, j) == 0
  {
    GpsRowsAtLeast(m, |m|);
    if forall j, i :: 0 <= j < |m| && 0 <= i < |m[j]| ==> Weight(m[j][i], i, j) == 0 then
      GpsRowsNone(m, |m|);
      GpsRows(m, |m|)
    else
      GpsRows(m, |m|)
  }

  lemma {:induction false} GpsRowAtLeast(row: seq<MapItem>, y: nat, n: nat)
    requires n <= |row|
    ensures forall x :: 0 <= x < n ==> Weight(row[x], x, y) <= GpsRow(row, y, n)
    decreases n
  {
    if n > 0 {
      GpsRowAtLeast(row, y, n - 1);
    }
  }

  lemma {:induction false} GpsRowsAtLeast(m: Warehouse, k: nat)
    requires k <= |m|
    ensures forall j, x :: 0 <= j < k && 0 <= x < |m[j]| ==> Weight(m[j][x], x, j) <= GpsRows(m, k)
    decreases k
  {
    if k > 0 {
      GpsRowsAtLeast(m, k - 1);
      GpsRowAtLeast(m[k - 1], k - 1, |m[k - 1]|);
    }
  }

  lemma {:induction false} GpsRowSet(row: seq<MapItem>, y: nat, n: nat, x: nat, v: MapItem)
    requires n <= |row| && x < |row|
    ensures GpsRow(row[x := v], y, n)
            == GpsRow(row, y, n) + (if x < n then Weight(v, x, y) - Weight(row[x], x, y) else 0)
    decreases n
  {
    if n > 0 {
      GpsRowSet(row, y, n - 1, x, v);
    }
  }

  lemma {:induction false} GpsRowsSet(m: Warehouse, k: nat, x: nat, y: nat, v: MapItem)
    requires k <= |m| && InBounds(m, x, y)
    ensures GpsRows(Set(m, x, y, v), k)
            == GpsRows(m, k) + (if y < k then Weight(v, x, y) - Weight(m[y][x], x, y) else 0)
    decreases k
  {
    if k > 0 {
      GpsRowsSet(m, k - 1, x, y, v);
      if k - 1 == y {
        GpsRowSet(m[y], y, |m[y]|, x, v);
      } else {
        assert Set(m, x, y, v)[k - 1] == m[k - 1];
      }
    }
  }

  /** Changing one cell changes the GPS sum by exactly the change of that cell's weight. */
  lemma GpsSet(m: Warehouse, x: nat, y: nat, v: MapItem)
    requires InBounds(m, x, y)
    ensures Gps(Set(m, x, y, v)) == Gps(m) + Weight(v, x, y) - Weight(m[y][x], x, y)
  {
    GpsRowsSet(m, |m|, x, y, v);
  }

  lemma {:induction false} GpsRowsNone(m: Warehouse, k: nat)
    requires k <= |m|
    requires forall j, i :: 0 <= j < k && 0 <= i < |m[j]| ==> Weight(m[j][i], i, j) == 0
    ensures GpsRows(m, k) == 0
    decreases k
  {
    if k > 0 {
      GpsRowsNone(m, k - 1);
      GpsRowNone(m[k - 1], k - 1, |m[k - 1]|);
    }
  }

  lemma {:induction false} GpsRowNone(row: seq<MapItem>, y: nat, n: nat)
    requires n <= |row| && forall i :: 0 <= i < n ==> Weight(row[i], i, y) == 0
    ensures GpsRow(row, y, n) == 0
    decreases n
  {
    if n > 0 {
      GpsRowNone(row, y, n - 1);
    }
  }

  /** Without cartons, and without the left halves of wide cartons, the GPS sum is zero. */
  lemma GpsNone(m: Warehouse)
    requires forall j, i :: 0 <= j < |m| && 0 <= i < |m[j]| ==> m[j][i] != Carton && m[j][i] != CartonL
    ensures Gps(m) == 0
  {
    GpsRowsNone(m, |m|);
  }

  /**
   Load, follow every instruction, and add up the GPS coordinates of the
   cartons; None where the source panics while loading.
   */
  function SumOfGpsCoordinates(mapLines: seq<string>, instructionText: string, wide: bool): (r: Option<nat>)
    ensures r.Some? <==> LoadData(mapLines, instructionText, wide).Some?
    ensures r.Some? ==>
      var loaded := LoadData(mapLines, instructionText, wide).value;
      exists final: State ::
        final == Follow(State(loaded.x, loaded.y, loaded.items), loaded.instructions) &&
        SameShape(loaded.items, final.items) && r.value == Gps(final.items) &&
        forall k :: Tally(final.items, k) == Tally(loaded.items, k)
  {
    match LoadData(mapLines, instructionText, wide)
    case Some(loaded) =>
      var final := Follow(State(loaded.x, loaded.y, loaded.items), loaded.instructions);
      Some(Gps(final.items))
    case None => None
  }
}
