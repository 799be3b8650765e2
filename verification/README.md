# advent2024 in Dafny

A model of the puzzle solutions in `src/day01.rs` to `src/day15.rs` of the
advent2024 repository, with proofs of what each solution computes. Each day is
one module (`Day01` … `Day15`) that follows the source function by function:
the same branches, the same guards, the same order of work. Shared pieces sit in
their own modules:

- `Common`: the `Option` type, sums and counts over sequences, multiset helpers.
- `Decimal`: powers of ten, digit strings, and Rust's `u64`/`i64` parsing and
  rendering (a leading `+` is accepted, as `str::parse` does).
- `Text`: `split_once` and `split` with their join round trips.
- `Grid`: rectangular grids of rows, the update of one cell, and cell counts.

Mutation in the source becomes a returned value. A `&mut` grid becomes a
function from grid to grid, and `HashMap`/`HashSet` become Dafny maps and sets.
Loops become recursive functions, or methods with loop invariants where the
source's loop is the algorithm: day 9's block compaction and day 11's memo
table. A `panic!` or `unwrap` on bad input either becomes a precondition or is
modelled as `None`. `None` is used where the source reports an error or a
missing value, as in day 1's `load_data`, day 5's parsing and day 15's loading.

Every operation comes with a partner that pins down what it means:

- an independent reference definition, such as a trail as a climbing path
  (day 10), a row of stones blinked step by step (day 11), a walk that
  disables and re-enables character by character (day 3), or the set of points
  on a line (day 8);
- an inverse: parsing after rendering, splitting after joining;
- or an invariant the operation keeps: the item counts and walls in day 15,
  the marked cells and areas in day 12, the multiset of files in day 9's
  whole-file compaction.

Day 9's block compaction is pinned down by a reference result: the file
blocks beyond the final file count fill the earlier gaps, taken from the
right end. Each of its whole-file rounds is specified completely: whether the
file moves, where it goes, and what is left behind.

## Model

| member | source | states |
|---|---|---|
| Decimal.ParseU64 | src/day01.rs:8 | A parsed `u64` never exceeds 18446744073709551615 |
| Decimal.ParseU64Show | src/day05.rs:16-17 | Parsing the decimal rendering of any `u64`, with or without a leading `+`, gives the number back |
| Decimal.ParseI64 | src/day14.rs:12-16 | A parsed `i64` lies within the `i64` range |
| Decimal.ParseI64Show | src/day14.rs:12-16 | Parsing the decimal rendering of any `i64`, with a leading `-` for negatives, gives the number back |
| Text.SplitOnce | src/day05.rs:14 | None exactly when the separator is absent; otherwise the text is the part before, the separator and the part after, and the part before holds no separator |
| Text.SplitOnceJoin | src/day05.rs:14 | Splitting at a separator the first part lacks recovers both parts |
| Text.Split | src/day05.rs:32 | There is always at least one piece, no piece holds the separator, and joining the pieces with the separator gives the text back |
| Text.SplitJoin | src/day05.rs:32 | Splitting pieces joined by a separator they lack gives the pieces back |
| Day01.ParseLine | src/day01.rs:7-9 | A line yields its two ids exactly when its first and second tokens both parse as `u64`, and the ids are those parses |
| Day01.LoadData | src/day01.rs:3-12 | A successful load has one entry per line in each column |
| Day01.LoadDataLines | src/day01.rs:3-12 | Loading succeeds exactly when every line parses, and entry i of the two columns is the pair line i parses to |
| Day01.LoadDataSucceeds | src/day01.rs:3-12 | Loading succeeds if and only if every line parses |
| Day01.LoadDataColumns | src/day01.rs:3-12 | After a successful load, entry i of the left and right columns is the pair line i parses to |
| Day01.LoadDataIds | src/day01.rs:6-10 | Loading succeeds exactly when the first two tokens of every line parse as `u64`, and then column entries are those parsed tokens, in line order |
| Day01.Sort | src/day01.rs:16-17 | The sorted column is in ascending order and is a permutation of the input column |
| Day01.SortIs | src/day01.rs:16-17 | Any sorted permutation of a column is what sorting gives, so the sort is determined by the multiset |
| Day01.SortOfPermutation | src/day01.rs:16-17 | Columns with the same multiset sort to the same list |
| Day01.SumDifferencesSymmetric | src/day01.rs:14-19 | Swapping the two columns leaves the sum of differences unchanged |
| Day01.SumDifferencesOrderFree | src/day01.rs:14-19 | The sum of differences depends only on the multisets of the two columns |
| Day01.SumDifferences | src/day01.rs:14-19 | For columns of equal length the part 1 answer is 0 if and only if one column is a permutation of the other |
| Day01.PairedDistanceZero | src/day01.rs:18 | Summing `abs_diff` over `zip` gives 0 on equal-length lists if and only if they are equal |
| Day01.SimilarityOrderFree | src/day01.rs:21-24 | The similarity score depends only on the multisets of the two columns |
| Day01.SimilarityScore | src/day01.rs:21-24 | The part 2 answer is 0 exactly when every left id is 0 or does not occur in the right column |
| Day01.SimilarityAppend | src/day01.rs:23 | The score adds over a split of the left column: each left id contributes on its own |
| Day01.ExamplePart1 | src/day01.rs:39 | The example columns give a sum of differences of 11 |
| Day01.ExamplePart2 | src/day01.rs:45 | The example columns give a similarity score of 31 |
| Day01.Insert | src/day01.rs:16-17 | Inserting into a sorted list keeps it sorted, adds exactly the new element to the multiset and nothing else |
| Day01.SortedUnique | src/day01.rs:16-17 | Two sorted lists with the same multiset are equal |
| Day01.PairedDistanceSymmetric | src/day01.rs:18 | `abs_diff` over `zip` gives the same sum with the lists exchanged |
| Day01.SimilarityRightOrderFree | src/day01.rs:23 | Reordering the right column never changes the score |
| Day01.SimilarityLeftOrderFree | src/day01.rs:23 | Reordering the left column never changes the score |
| Day01.ExampleSortedLeft | src/day01.rs:16 | The example left column sorts to 1, 2, 3, 3, 3, 4 |
| Day01.ExampleSortedRight | src/day01.rs:17 | The example right column sorts to 3, 3, 3, 4, 5, 9 |
| Day01.ExampleDistance | src/day01.rs:18 | The paired distances of the sorted example columns add up to 11 |
| Day01.ExampleCounts | src/day01.rs:23 | In the example right column 1 and 2 occur never, 3 three times and 4 once |
| Day02.Steps | src/day02.rs:17-27 | One verdict per adjacent pair; the verdict for pair i classifies `report[i+1] - report[i]` |
| Day02.ClassifyDirection | src/day02.rs:18-26 | A step counts as increasing if and only if it is in 1..3, and as decreasing if and only if it is in -3..-1 |
| Day02.FoldDirection | src/day02.rs:28-32 | Reducing the verdicts gives a direction if and only if every verdict is that direction |
| Day02.ReportSafe | src/day02.rs:16-32 | `report_safe` holds if and only if the report has at least two levels and all steps are in 1..3 or all in -3..-1 |
| Day02.ShortReportUnsafe | src/day02.rs:32 | A report of fewer than two levels is unsafe, through `unwrap_or(Unsafe)` |
| Day02.BadStepUnsafe | src/day02.rs:18-26 | A flat step or a step larger than 3 makes the report unsafe |
| Day02.ReportSafeDampened | src/day02.rs:34-48 | The dampened check is true if and only if the report is safe, or is safe with some single level removed |
| Day02.SafeAfterRemovalFrom | src/day02.rs:39-47 | The loop over removal positions from `from` onward finds a safe report if and only if removing some level at or after `from` leaves a safe report |
| Day02.SafeIsDampenedSafe | src/day02.rs:35-37 | Every safe report passes the dampened check |
| Day02.CountPureLeDampened | src/day02.rs:50-56 | The dampened count is never below the plain count |
| Day02.CountPureSafeReports | src/day02.rs:50-52 | The part 1 count is at most the number of reports; it is 0 exactly when no report is safe, and all of them exactly when every report is |
| Day02.CountDampenedSafeReports | src/day02.rs:54-56 | The part 2 count is at most the number of reports; it is 0 exactly when no report passes the dampened check, and all of them exactly when every report does |
| Day02.StepsDirection | src/day02.rs:17-26 | Every step verdict is `Increasing` exactly when each level rises by 1 to 3 over the one before, and every one is `Decreasing` exactly when each falls by 1 to 3 |
| Day02.VerdictDirection | src/day02.rs:27-31 | Reducing a non-empty list of verdicts gives something other than `Unsafe` exactly when all verdicts are `Increasing` or all are `Decreasing` |
| Day03.Find | src/day03.rs:20 | `str::find`: the result is an index where the pattern occurs and no earlier index matches; None means the pattern occurs nowhere |
| Day03.CleanDoDonts | src/day03.rs:19-31 | The result is never longer than the input; with no `don't()` it is the input; otherwise it keeps the text before the first `don't()`, and only that text when no `do()` follows |
| Day03.CleanDoDontsIsWalk | src/day03.rs:19-31 | The cut-and-recurse function equals a character-by-character walk that disables at `don't()` and re-enables at `do()` |
| Day03.WalkEnabledPrefix | src/day03.rs:25-26 | While enabled, everything before the first `don't()` is kept unchanged |
| Day03.WalkDisabledSkip | src/day03.rs:24-26 | While disabled, everything before the next `do()` is dropped |
| Day04.XmasAtReadsWord | src/day04.rs:5-75 | A reading in a direction holds exactly when, for k from 0 to 3, the cell k steps away is inside the grid and holds letter k of `XMAS` |
| Day04.MatchE | src/day04.rs:5-12 | The east matcher returns 1 if and only if `XMAS` reads eastward from the cell |
| Day04.MatchW | src/day04.rs:14-21 | The west matcher returns 1 if and only if `XMAS` reads westward from the cell |
| Day04.MatchN | src/day04.rs:23-30 | The north matcher returns 1 if and only if `XMAS` reads northward from the cell |
| Day04.MatchS | src/day04.rs:32-39 | The south matcher returns 1 if and only if `XMAS` reads southward; the `y_len - 4` guard needs four rows |
| Day04.MatchNE | src/day04.rs:41-48 | The north-east matcher returns 1 if and only if `XMAS` reads in that direction |
| Day04.MatchSE | src/day04.rs:50-57 | The south-east matcher returns 1 if and only if `XMAS` reads in that direction |
| Day04.MatchSW | src/day04.rs:59-66 | The south-west matcher returns 1 if and only if `XMAS` reads in that direction |
| Day04.MatchNW | src/day04.rs:68-75 | The north-west matcher returns 1 if and only if `XMAS` reads in that direction |
| Day04.HitsAtX | src/day04.rs:84 | Readings start only on an `X`, at most eight per cell |
| Day04.FindXmas | src/day04.rs:77-97 | Part 1 counts every (start cell, direction) reading of `XMAS` in the grid, at most eight per `X` |
| Day04.CellHits | src/day04.rs:84-93 | What the scan adds at one cell, running the eight matchers only on an `X`, is exactly the readings that start at that cell |
| Day04.FindXmasInRow | src/day04.rs:83-95 | One pass of the inner loop adds exactly the readings that start in that row |
| Day04.HitsInRowsBound | src/day04.rs:84-93 | The readings starting in the first m rows are at most eight times the `X`s in those rows |
| Day04.VerifyCross | src/day04.rs:99-104 | The four accepted corner layouts are exactly "each diagonal holds one `M` and one `S`" |
| Day04.BorderRowHasNoCross | src/day04.rs:111 | No cross is centred on the first or last row, so scanning rows 1..y_len-1 misses none |
| Day04.FindCrosses | src/day04.rs:106-122 | Part 2 counts every cross in the whole grid, at most one per interior cell |
| Day04.CrossesAtMostAs | src/day04.rs:113-114 | There are never more crosses than `A`s |
| Day03.FindFrom | src/day03.rs:20 | The search from index i returns the first occurrence at or after i, and None exactly when there is none |
| Day05.ParseRule | src/day05.rs:13-19 | A rule needs a `|`; a parsed rule is the split at the first `|` with both sides valid `u64` numbers |
| Day05.ParseRuleShow | src/day05.rs:13-19 | Writing a rule as `before|after` and parsing it gives the rule back |
| Day05.ParseNumbers | src/day05.rs:32 | Collecting page numbers succeeds exactly when every token is a `u64`, and then yields them in order |
| Day05.ParseUpdate | src/day05.rs:32 | A parsed update holds at least one page |
| Day05.ParseUpdateShow | src/day05.rs:32 | A non-empty update written with commas parses back to itself |
| Day05.Load | src/day05.rs:22-36 | After the gap no rule is read, and every update read is non-empty |
| Day05.LoadData | src/day05.rs:22-36 | Every loaded update is non-empty |
| Day05.FirstBlank | src/day05.rs:27-28 | The gap is the first empty line, or the end of the input when there is none |
| Day05.LoadDataSplit | src/day05.rs:22-36 | The lines before the first empty line are the rules and the non-empty lines after it are the updates; a later empty line is ignored; any bad line fails the whole load |
| Day05.RuleFires | src/day05.rs:40-41 | The inner check fires exactly when some rule with this page as `before` names an `after` that already appeared |
| Day05.UpdateValidIff | src/day05.rs:38-47 | An update is valid if and only if no page is preceded by a page that a rule says must come after it |
| Day05.UpdateValid | src/day05.rs:38-47 | With no rules, or with at most one page, an update is valid; an invalid update has at least two pages and holds both pages of some rule |
| Day05.Position | src/day05.rs:53 | `position` gives the first index of the page |
| Day05.FindSwap | src/day05.rs:50-53 | A swap partner exists exactly when some rule fires, and it is an earlier index holding the rule's `after` page |
| Day05.Swap | src/day05.rs:58 | Swapping exchanges two entries, keeps the rest and keeps the multiset of pages |
| Day05.PrefixValidSwap | src/day05.rs:58-59 | After the swap the pages before the new index are still free of violations, so resuming there is sound |
| Day05.CorrectUpdate | src/day05.rs:49-64 | Whatever the repair loop returns is a rearrangement of the same pages that obeys every rule |
| Day05.CorrectValidUnchanged | src/day05.rs:49-64 | A valid update goes through the loop unchanged |
| Day05.CorrectFromOne | src/day05.rs:79 | Starting at index 1 is sound for any update, and a valid update comes back unchanged |
| Day05.Correct | src/day05.rs:79 | A repaired update is a valid permutation of the input; a valid input is returned as is |
| Day05.PartsPartitionUpdates | src/day05.rs:67-82 | Part 1 and part 2 split the updates: repairing all of them and summing the middles gives the part 1 sum plus the part 2 sum |
| Day05.SumValidMiddlePages | src/day05.rs:67-73 | Every valid update's middle page is part of the part 1 sum, and the sum is 0 exactly when every valid update has middle page 0 |
| Day05.SumCorrectedMiddlePages | src/day05.rs:75-82 | With every update valid the part 2 sum is 0; there is no sum exactly when the repair of some invalid update does not finish |
| Day05.ValidFromIff | src/day05.rs:38-47 | Scanning on from a violation-free prefix succeeds exactly when the whole update is free of violations |
| Day06.LoadMap | src/day06.rs:27-38 | The lab has the shape of the input and each cell draws as the character it was read from; no cell starts visited |
| Day06.GuardInRow | src/day06.rs:42-46 | The leftmost guard of a row, or none exactly when the row has no guard |
| Day06.LocateFrom | src/day06.rs:40-50 | Searching from row `y` finds nothing exactly when those rows hold no guard |
| Day06.LocateFromFirst | src/day06.rs:40-50 | What the search finds is a guard with no guard before it in reading order |
| Day06.LocateGuard | src/day06.rs:40-50 | The first guard in reading order, and None exactly when the lab has no guard |
| Day06.SearchPair | src/day06.rs:55-59 | The scan finds an earlier consecutive pair of turns equal to the last two exactly when one exists |
| Day06.GuardLooping | src/day06.rs:52-63 | Looping if and only if there are more than three turns and the last two turns repeat an earlier consecutive pair |
| Day06.Step | src/day06.rs:73-116 | One pass marks the cell visited; the walk exits exactly when facing off the lab; an obstacle ahead means a right turn in place with the turn recorded; otherwise one step forward in the same direction; looping is reported only after a turn that repeats |
| Day06.Travel | src/day06.rs:72-117 | The walk keeps the lab's shape and obstacles, never unmarks a visited cell, and visits its starting cell |
| Day06.TravelMap | src/day06.rs:64-71 | Walking from the first guard facing north visits the guard's cell and keeps every obstacle |
| Day06.CountPath | src/day06.rs:122-130 | Part 1 counts at least one visited cell |
| Day06.CountVisited | src/day06.rs:122-124 | The count of visited cells is 0 exactly when no cell of the map is marked visited |
| Day06.TrialHasGuard | src/day06.rs:139-141 | Putting an obstacle on any non-guard cell leaves a lab that can still be walked |
| Day06.LoopsInRowLe | src/day06.rs:136-146 | In a row, the number of looping trials is at most the number of cells tried |
| Day06.LoopsInRowsLe | src/day06.rs:135-146 | Over the rows, looping trials are at most the cells tried |
| Day06.CandidatesInRowLe | src/day06.rs:138 | The cells tried in a row are visited cells and exclude the start cell |
| Day06.CandidatesInRowsLe | src/day06.rs:135-138 | The cells tried are visited cells other than the start cell |
| Day06.LoopsBound | src/day06.rs:132-150 | The loop count plus the start cell is at most the number of visited cells |
| Day06.CountGuardLoops | src/day06.rs:132-150 | Part 2 never counts more loops than part 1's visited cells minus the start cell |
| Day06.StepNorth | src/day06.rs:75-84 | The current cell is marked visited. Facing north: the walk exits exactly on the top row; an obstacle above turns the guard east in place and records the turn; otherwise the guard moves one row up |
| Day06.StepEast | src/day06.rs:85-94 | The current cell is marked visited. Facing east: the walk exits exactly in the last column; an obstacle to the right turns the guard south in place and records the turn; otherwise the guard moves one column right |
| Day06.StepSouth | src/day06.rs:95-104 | The current cell is marked visited. Facing south: the walk exits exactly on the bottom row; an obstacle below turns the guard west in place and records the turn; otherwise the guard moves one row down |
| Day06.StepWest | src/day06.rs:105-114 | The current cell is marked visited. Facing west: the walk exits exactly in the first column; an obstacle to the left turns the guard north in place and records the turn; otherwise the guard moves one column left |
| Day07.ConcatOperands | src/day07.rs:22-24 | Printing the two numbers one after the other and reading the result back gives `a * 10^digits(b) + b`, never less than `a` |
| Day07.ConcatValue | src/day07.rs:23 | The joined decimal renderings are all digits, and their value is `a` shifted left by the digit count of `b`, plus `b` |
| Day07.Solveable | src/day07.rs:26-44 | A running value above the target is rejected; with no operands left the answer is whether the running value equals the target |
| Day07.SolveableSound | src/day07.rs:26-44 | Whatever the search accepts can be reached by some choice of operators, with concatenation only when allowed |
| Day07.SolveableCompleteBounded | src/day07.rs:26-44 | Every choice of operators that hits the target without overshooting along the way is found by the search |
| Day07.BoundedOrRestart | src/day07.rs:27-28 | An evaluation that overshoots on the way can only reach the target again after a multiplication by zero, from which it never overshoots |
| Day07.ZeroPrefix | src/day07.rs:36 | Multiplying 0 through a prefix of operands keeps the value 0, so a later non-overshooting evaluation can start there |
| Day07.SolveableIff | src/day07.rs:26-44 | From a running value of 0, the search accepts a target exactly when some choice of operators produces it |
| Day07.ConcatWidens | src/day07.rs:34-40 | Anything solvable without concatenation is solvable with it |
| Day07.TotalWithoutConcatLe | src/day07.rs:46-60 | The part 1 total never exceeds the part 2 total |
| Day07.TotalCalibration | src/day07.rs:46-60 | Every calibration the search accepts has its total counted in the answer, and the answer is 0 exactly when every accepted calibration has total 0 |
| Day07.ExampleLines | src/day07.rs:66-74 | `190: 10 19` is solvable with `+` and `*`; `83: 17 5` is not solvable at all; `156: 15 6` needs concatenation |
| Day08.VisitScanned | src/day08.rs:20-25 | Visiting the next byte keeps the scan invariant: the recorded antennas are exactly the non-`.` cells seen so far, under their own character, in reading order |
| Day08.ScanRow | src/day08.rs:20-25 | After a row, every non-`.` cell of it is recorded and the last column is the row's last index (unchanged for an empty row) |
| Day08.RowDone | src/day08.rs:26 | Finishing a row and recording its index leaves the invariant ready for the start of the next row |
| Day08.LoadFrom | src/day08.rs:19-27 | Scanning the remaining rows records every non-`.` cell; the bounds are the last column seen and the last row index |
| Day08.LoadData | src/day08.rs:15-33 | A character is a key holding a position exactly when that cell of the map holds that character and it is not `.`; no position is listed twice; the bounds are the last column seen and the last row (0 for an empty map) |
| Day08.Antinodes | src/day08.rs:35-54 | A point is a part 1 antinode exactly when it lies on the map and is `2a - b` for two distinct antennas `a`, `b` of one frequency |
| Day08.HarmonicAntinodes | src/day08.rs:56-93 | Every part 2 antinode is on the map or is one of the antennas |
| Day08.Ray | src/day08.rs:66-75 | Every point the walk from an antenna collects lies on the map |
| Day08.RayMembers | src/day08.rs:66-85 | A walk starting on the map collects exactly the on-map points `a - m(b - a)` for all `m` from its start onward: once the walk leaves the map it could never return |
| Day08.StepBound | src/day08.rs:66-75 | A walk along a nonzero step leaves the map after a bounded number of multiples, so each loop ends |
| Day08.StaysOut | src/day08.rs:70 | Along one coordinate, a walk that has left `[0, max]` stays outside it for every larger multiple |
| Day08.AntinodesInHarmonics | src/day08.rs:45-47 | Every part 1 antinode is also a part 2 antinode (multiple 1 of the walk from `a`) |
| Day08.AntennasInHarmonics | src/day08.rs:86-87 | An antenna with at least one same-frequency partner is a part 2 antinode; when an antenna is alone on its frequency, every part 2 antinode lies on the line of a pair of distinct antennas of some other frequency |
| Day08.RayArea | src/day08.rs:66-85 | A walk depends only on the size of the map, not on its antennas |
| Day08.HarmonicsArea | src/day08.rs:59-88 | The harmonics of a pair depend only on the size of the map |
| Day08.LoneAntennaAddsNothing | src/day08.rs:58-61 | A frequency with a single antenna forms no pair, so dropping it from the map leaves the part 2 antinodes unchanged |
| Day08.PairOnLine | src/day08.rs:61-87 | Every point collected for a pair on the map lies on the map, at a whole multiple of the pair's offset from the first antenna |
| Day08.HarmonicsOnLines | src/day08.rs:56-93 | Every part 2 antinode is on the map and on the line through two distinct same-frequency antennas, at a whole multiple of their offset |
| Day08.AlongReversed | src/day08.rs:76-79 | Walking with negative multiples is walking away from `2a - b` with positive ones |
| Day08.SharedIffHarmonics | src/day08.rs:56-101 | A loaded map has a part 2 antinode exactly when two different cells hold the same antenna character |
| Day08.UniqueAntinodeLocationsWithHarmonics | src/day08.rs:99-101 | The part 2 count is 0 exactly when no two cells of the map hold the same antenna character |
| Day08.UniqueAntinodeLocations | src/day08.rs:95-97 | The part 1 count never exceeds the part 2 count for any map, and is 0 when no two cells hold the same antenna character |
| Day08.SubsetCard | src/day08.rs:95-101 | A subset of points has no more elements than its superset |
| Day09.Repeat | src/day09.rs:14-16 | `n` copies of the value, and nothing else |
| Day09.NaiveFrom | src/day09.rs:12-23 | The layout from a digit position on has as many blocks as the digits that remain add up to |
| Day09.NaiveLoad | src/day09.rs:9-25 | The block list has one entry per block: its length is the sum of all digits |
| Day09.SmartFrom | src/day09.rs:30-37 | From a digit position on there is one element per digit, the one that digit denotes (file `p / 2` at even positions, a gap at odd ones) |
| Day09.SmartLoad | src/day09.rs:27-39 | One element per digit: a file with id `p / 2` and the digit's length at even positions `p`, a gap of the digit's length at odd ones |
| Day09.NaiveRepr | src/day09.rs:88-105 | The expanded list has as many blocks as the elements' lengths add up to |
| Day09.NaiveReprFrom | src/day09.rs:9-39 | From any position, expanding the element list gives exactly the block list |
| Day09.NaiveReprLoad | src/day09.rs:9-39 | The two loaders agree: expanding the element list gives the block-per-entry list |
| Day09.NaiveReprAppend | src/day09.rs:88-105 | Expanding two element lists joined gives the expansions of each, joined |
| Day09.SkipTrailingGaps | src/day09.rs:46-48 | The inner loop stops at the last file block and never passes the known file block, so it cannot underflow |
| Day09.FileCount | src/day09.rs:41-59 | The number of file blocks never exceeds the number of blocks |
| Day09.FileCountAppend | src/day09.rs:41-59 | The file blocks of two lists joined are those of each added together |
| Day09.FileCountExtremes | src/day09.rs:41-59 | A list of file blocks only has as many file blocks as entries; a list of gaps has none |
| Day09.Fill | src/day09.rs:52 | Filling the gaps from a donor list keeps the length of the list |
| Day09.FromRight | src/day09.rs:46-48 | The donors taken from the right end are exactly as many as the file blocks there |
| Day09.Compacted | src/day09.rs:41-59 | The reference result of part 1 has one entry per block of the input |
| Day09.FillFilesPrefix | src/day09.rs:45-47 | A run of file blocks passes through unchanged and uses no donor |
| Day09.FromRightLast | src/day09.rs:46-52 | The rightmost file block is the first donor; turning it into a gap leaves the remaining donors in order |
| Day09.CompactedSorted | src/day09.rs:49-50 | A disk whose gaps all follow its files is its own reference result |
| Day09.SwapBounds | src/day09.rs:45-52 | With only files before the leftmost gap and only gaps after the rightmost file, the leftmost gap lies below the file count and the rightmost file at or above it, and swapping them keeps the file count |
| Day09.FillAtGap | src/day09.rs:52 | Filling a gap that follows a run of files with the first donor is the same as writing that donor into it |
| Day09.DonorsAfterSwap | src/day09.rs:46-52 | After the swap the donors beyond the file count are the old ones without the rightmost file block |
| Day09.FrontAfterSwap | src/day09.rs:52 | The swap changes the first part of the disk only at the leftmost gap |
| Day09.CompactedSwap | src/day09.rs:52 | Swapping the leftmost gap with the rightmost file block leaves the reference result unchanged |
| Day09.CursorsCrossed | src/day09.rs:49-50 | When the two cursors have crossed, the disk is its own reference result |
| Day09.CursorsSwap | src/day09.rs:49-53 | A swap keeps the blocks and the reference result and extends both the file run and the gap run |
| Day09.SmallCompaction | src/day09.rs:41-59 | For the disk map `111` (file 0, a gap, file 1) the reference result is file 0, file 1, then the gap |
| Day09.NaiveCompact | src/day09.rs:41-59 | The result equals the reference compaction: with `F` file blocks, the first `F` positions keep their file blocks and have their gaps filled, left to right, by the file blocks beyond `F` taken from the right end, and all later positions are gaps. It also holds the same blocks as the input, and no file block follows a gap |
| Day09.ChecksumFromSet | src/day09.rs:107-109 | Changing one block changes the checksum only by that block's own term |
| Day09.ChecksumSet | src/day09.rs:107-109 | Each block contributes position times id on its own, and rewriting one gap as another gap leaves the checksum unchanged |
| Day09.Checksum | src/day09.rs:107-109 | The checksum is 0 exactly when no block after the first holds a file other than file 0 |
| Day09.ChecksumFromAppend | src/day09.rs:107-109 | The checksum of two block lists joined is the first one's plus the second one's counted from the first one's length |
| Day09.FirstFileFrom | src/day09.rs:67-69 | Returns the first position from `k` on holding a file with the id, or none exactly when there is no such file |
| Day09.FirstFile | src/day09.rs:67-69 | Returns the first position holding a file with the id, or none exactly when there is no such file |
| Day09.FirstFitFrom | src/day09.rs:70-73 | Returns the first position in `[k, limit)` holding a gap at least `length` long, or none exactly when there is none |
| Day09.FirstFit | src/day09.rs:70-73 | Returns the first position before the file holding a gap at least as long as the file, or none exactly when there is none |
| Day09.FilesAppend | src/day09.rs:61-86 | The files and the total length of two lists joined are those of each added together |
| Day09.Relocate | src/day09.rs:74-78 | The file is written at the gap's position and a gap of the file's length takes the file's old place, shifted one to the right by the insertion |
| Day09.RelocateKeeps | src/day09.rs:74-78 | Moving a file into a large enough gap keeps every file and the total length |
| Day09.Split5 | src/day09.rs:74-78 | The files and total length of a list cut into five pieces are those of the pieces added up |
| Day09.Exchange | src/day09.rs:74-78 | Replacing two pieces by two others with the same files and total length keeps both for the whole list |
| Day09.SwapMiddle | src/day09.rs:74-78 | Exchanging two parts of a multiset sum by parts with the same sum keeps the sum |
| Day09.FilesPair | src/day09.rs:75-77 | A file followed by a gap holds just that file and has the two lengths added |
| Day09.CannotMove | src/day09.rs:67-73 | When no gap before the first file with the id is long enough, no gap can take that file |
| Day09.MoveFile | src/day09.rs:67-83 | One round keeps every file and the total length. When some gap before the first file with the id is long enough, that file goes into the first such gap. The rest of that gap stays after the file, a gap of the file's length takes its old place, and everything else keeps its order. Otherwise the disk is unchanged |
| Day09.LastFileId | src/day09.rs:62-65 | The id belongs to a file after which no other file appears |
| Day09.LastFileBefore | src/day09.rs:62-65 | Finds the last file before `n`: no file appears between it and `n` |
| Day09.MoveFilesDown | src/day09.rs:66-84 | The rounds for ids `curr` down to 1 keep every file and the total length; each round is the fully specified `MoveFile` step |
| Day09.SmartCompact | src/day09.rs:61-86 | Whole-file compaction keeps every file and expands to as many blocks as before; it consists of the `MoveFile` rounds from the last file's id down to 1 |
| Day09.MoveFileKeepsFront | src/day09.rs:70-73 | A file at the front never moves, since there is no gap before it |
| Day09.MoveFilesDownKeepsFront | src/day09.rs:66-84 | A front file stays at the front through every round |
| Day09.FileZeroStays | src/day09.rs:61-86 | File 0, which loading puts first, is still first after whole-file compaction |
| Day09.ChecksumCompactedDiskNaive | src/day09.rs:111-113 | The answer is the checksum of the reference compaction of the loaded blocks, a rearrangement in which no file block follows a gap |
| Day09.ChecksumCompactedDiskSmart | src/day09.rs:115-117 | The answer is the checksum of the expanded blocks of a disk that keeps every file of the loaded disk, its total length, and file 0 at the front |
| Day10.LoadRow | src/day10.rs:4 | One height per character, each the character's code minus `'0'`, for characters from `'0'` to code 255 |
| Day10.LoadData | src/day10.rs:3-5 | One row per line and one height per character, each the character's code minus `'0'` |
| Day10.FindTrailEnd | src/day10.rs:7-27 | Every reported end is on the map at height 9, and a cell already at height 9 reports just itself |
| Day10.Branch | src/day10.rs:14-25 | A neighbour contributes ends only when it is on the map and exactly one higher, and those ends are at height 9 |
| Day10.TrailHeights | src/day10.rs:7-27 | Along a trail the height rises by exactly one per step |
| Day10.FindTrailEndSound | src/day10.rs:7-27 | Every reported end is the last cell of some hiking trail from the starting cell |
| Day10.EndFromNeighbour | src/day10.rs:12-26 | Below height 9, every reported end was reported by a neighbour one higher |
| Day10.FindTrailEndComplete | src/day10.rs:7-27 | The end of every hiking trail from a cell is among the reported ends |
| Day10.NeighbourEnds | src/day10.rs:14-25 | Every end a climbing neighbour reports is also reported for the cell |
| Day10.DistinctAtMostLength | src/day10.rs:29-36 | A list of ends has no more distinct elements than entries |
| Day10.UniqueEndsScoring | src/day10.rs:29-32 | The part 1 score of a trailhead is at most its number of trails, and 0 exactly when it has none |
| Day10.UniquePathsScoring | src/day10.rs:34-36 | The part 2 score of a trailhead is never below its part 1 score, and 0 exactly when that is 0 |
| Day10.ScoreRowLe | src/day10.rs:45-49 | Along a row, the part 1 scores add up to no more than the part 2 scores |
| Day10.ScoreRowsLe | src/day10.rs:44-50 | Over the remaining rows, the part 1 scores add up to no more than the part 2 scores |
| Day10.SumOfTrailheadUniqueEnds | src/day10.rs:38-56 | The part 1 total never exceeds the part 2 total on any map, and is 0 on a map without a height-0 cell |
| Day10.SumOfTrailheadPaths | src/day10.rs:38-60 | The part 2 total is 0 on a map without a height-0 cell |
| Day10.ScoreRowNoTrailheads | src/day10.rs:46 | A row segment with no height-0 cell adds nothing |
| Day10.ScoreRowsNoTrailheads | src/day10.rs:44-50 | Rows with no height-0 cell add nothing |
| Day10.ScoreTrailhead | src/day10.rs:38-52 | Only height-0 cells are trailheads: a map without one scores 0 under any scoring |
| Day11.CountDigits | src/day11.rs:7-9 | The digit count `d` of a positive number satisfies `10^(d-1) <= n < 10^d` |
| Day11.SplitStone | src/day11.rs:20-25 | The front half shifted left by half the digits plus the back half gives the stone back, and the back half has at most half the digits |
| Day11.CountStone | src/day11.rs:11-33 | Every stone stays at least one stone, and with no blinks left it is exactly one |
| Day11.Blink | src/day11.rs:15-28 | One blink turns a stone into one or two stones: `0` becomes `1`, and a stone with an odd number of digits is multiplied by 2024 |
| Day11.CountAllAppend | src/day11.rs:35-38 | The count of two rows of stones joined is the sum of their counts |
| Day11.CountAllBlink | src/day11.rs:15-28 | Blinking a row once and then counting `n` more blinks equals counting `n + 1` blinks |
| Day11.BlinksLength | src/day11.rs:11-38 | The per-stone counts add up to the length of the row after that many blinks |
| Day11.CountAllOnes | src/day11.rs:15-16 | With no blinks, each stone counts once |
| Day11.CountStoneIsRowLength | src/day11.rs:11-33 | The recursion counts exactly the stones the row holds after that many blinks |
| Day11.CountStoneMemo | src/day11.rs:11-33 | The memoised recursion returns the same count as the plain one, keeps every table entry equal to the count for its key, and adds the current key |
| Day11.CountHalvesMemo | src/day11.rs:21-25 | The even-digits branch, counting the front half and then the back half with the table the front left, returns the plain recursion's count and keeps the table correct |
| Day11.CountStones | src/day11.rs:35-38 | The total over a row is the number of stones after that many blinks, sharing one table |
| Day11.ExampleOneBlink | src/day11.rs:15-28 | One blink of `0 1 10 99 999` gives seven stones |
| Day12.MarksOnlyTrans | src/day12.rs:56-98 | Marking some cells of a plant and then some more is marking some cells of that plant |
| Day12.MarksSomeTrans | src/day12.rs:108-118 | Marking some unvisited cells and then some more is marking some unvisited cells |
| Day12.MarkCell | src/day12.rs:17-19 | Marking an unvisited cell (adding 32 to its letter) keeps the map well formed, changes nothing else, and leaves exactly one fewer unvisited cell |
| Day12.Chain | src/day12.rs:19-98 | The marking of the cell and the four looks compose, and the first cell stays counted |
| Day12.CellCorners | src/day12.rs:24-53 | Each cell contributes at most four corners, each recorded at the cell itself |
| Day12.ExploreGroup | src/day12.rs:14-106 | The fill marks only cells of the starting plant, the start among them. The group's area is exactly the number of cells it marked, at least one. Its edges are exactly the fence sides of the cells it marked: for each such cell, the directions whose neighbour is off the map or another plant. It has at most four corners per cell |
| Day12.FillTotals | src/day12.rs:20-105 | A cell plus its four looks has at most four edges and four corners per cell |
| Day12.Look | src/day12.rs:56-98 | Looking one way marks only cells of the plant, and the area gained is the number of cells marked. The edges found are one exactly when the neighbour is off the map or another plant, plus the fence sides of the cells the look's fill marked. A look that finds no new cell adds no corner |
| Day12.CellFence | src/day12.rs:56-98 | A cell has at most four fence sides |
| Day12.SameKept | src/day12.rs:25-28 | Marking cells keeps which neighbours hold the same plant, since a plant and its counted form both count as the same |
| Day12.FenceKept | src/day12.rs:56-98 | Marking cells keeps every cell's fence sides |
| Day12.FenceRowAdd | src/day12.rs:56-98 | Within a row, the fence sides of the cells marked in two successive markings add up |
| Day12.FenceRowsAdd | src/day12.rs:56-98 | Over the first rows, the fence sides of the cells marked in two successive markings add up |
| Day12.FenceAdd | src/day12.rs:56-98 | A cell is marked at most once, so the fence sides marked in two successive markings add up |
| Day12.FenceRowRef | src/day12.rs:25-28 | Within a row, counting fence sides on a map with more cells marked gives the same count |
| Day12.FenceRowsRef | src/day12.rs:25-28 | Over the first rows, counting fence sides on a map with more cells marked gives the same count |
| Day12.FenceRef | src/day12.rs:25-28 | Counting fence sides on a map with more cells marked gives the same count |
| Day12.FenceRowSet | src/day12.rs:19 | Within a row, marking one cell adds that cell's fence sides if it lies in the row, else nothing |
| Day12.FenceRowsSet | src/day12.rs:19 | Over the first rows, marking one cell adds that cell's fence sides if its row is among them, else nothing |
| Day12.FenceSet | src/day12.rs:19 | Marking one cell adds exactly that cell's fence sides |
| Day12.FenceRowNone | src/day12.rs:56-98 | Within a row, marking nothing adds no fence sides |
| Day12.FenceRowsNone | src/day12.rs:56-98 | Over the first rows, marking nothing adds no fence sides |
| Day12.FenceNone | src/day12.rs:56-98 | Marking nothing adds no fence sides |
| Day12.FenceRowAll | src/day12.rs:108-118 | Within a row where every cell was marked, the marked fence sides are all the row's fence sides |
| Day12.FenceRowsAll | src/day12.rs:108-118 | Over the first rows, when every cell was marked, the marked fence sides are all their fence sides |
| Day12.FenceAll | src/day12.rs:108-118 | When every cell was marked, the marked fence sides are the fence of the whole map |
| Day12.FenceChainAdd | src/day12.rs:19-98 | The fence sides marked by the first cell and the four looks add up, all counted on the starting map |
| Day12.FenceChain | src/day12.rs:19-98 | The fence sides marked by the first cell and the four looks add up, each look's part counted on the map it started from |
| Day12.FillEdges | src/day12.rs:55-98 | The edges the four looks find are the fence sides of every cell the fill step marked |
| Day12.AreaSumAppend | src/day12.rs:120-127 | The areas of two lists of groups joined add up |
| Day12.EdgeSumAppend | src/day12.rs:120-122 | The edges of two lists of groups joined add up |
| Day12.FoundGroup | src/day12.rs:111-115 | A group found at a cell, followed by the rest of the row's groups, keeps the row's area, edge and marking facts |
| Day12.BoundedCons | src/day12.rs:113 | A group of at least one cell with at most four edges and corners per cell keeps a list of such groups bounded, and adds its area |
| Day12.OnlyIsSome | src/day12.rs:112-113 | A fill from an unvisited cell marks only unvisited cells |
| Day12.KeepsLower | src/day12.rs:112 | A counted cell stays counted |
| Day12.FindRow | src/day12.rs:111-115 | Scanning a row marks only unvisited cells and leaves every cell from the start column on counted. The new groups' areas add up to the cells marked, and their edges to those cells' fence sides |
| Day12.KeepsRows | src/day12.rs:110-116 | Scanning later rows leaves the cells of earlier rows counted |
| Day12.FindRows | src/day12.rs:110-116 | Scanning the remaining rows leaves all their cells counted. The groups' areas add up to the cells marked, and their edges to those cells' fence sides |
| Day12.FindGroups | src/day12.rs:108-118 | Afterwards every cell is counted and every group is bounded. The areas add up to the number of cells that were unvisited, and the edges to those cells' fence sides |
| Day12.GroupsCoverMap | src/day12.rs:108-118 | On a freshly loaded map the groups tile the whole map: their areas add up to the number of cells |
| Day12.GroupsFenceMap | src/day12.rs:108-118 | On a freshly loaded map the groups' edges add up to the fence of the whole map: every cell's sides that face the border or another plant |
| Day12.GroupPriceBound | src/day12.rs:121-126 | A group's price is at most four times its area squared, with or without the discount |
| Day12.PriceBounds | src/day12.rs:120-127 | Each price sum is at most four times the sum of the squared areas |
| Day12.Price | src/day12.rs:120-122 | Every group's area times edges is part of the price, and the price is 0 exactly when every group has no area or no edges |
| Day12.DiscountedPrice | src/day12.rs:124-127 | Every group's area times corners is part of the price, and the price is 0 exactly when every group has no area or no corners |
| Day12.TotalFencingPrice | src/day12.rs:120-122 | The part 1 price is at most four times the sum of the groups' squared areas |
| Day12.DiscountedFencingPrice | src/day12.rs:124-127 | The part 2 price is at most four times the sum of the groups' squared areas |
| Day13.WithOffset | src/day13.rs:17-24 | Loading with an offset moves both prize coordinates by the offset and leaves the buttons as written |
| Day13.TruncDiv | src/day13.rs:33-34 | Division as `/` on `i64`: the remainder is smaller than the divisor in magnitude and is zero or has the dividend's sign |
| Day13.TruncDivRemainder | src/day13.rs:33-34 | The remainder left by truncating division is the magnitude remainder, carrying the dividend's sign |
| Day13.TruncDivExact | src/day13.rs:33-34 | Dividing an exact multiple gives the factor back, whatever the signs |
| Day13.TruncDivUnique | src/day13.rs:33-34 | The remainder conditions determine the truncated quotient |
| Day13.Solve | src/day13.rs:33-39 | Whenever the solver as written returns presses, they put the claw exactly on the prize |
| Day13.CramerB | src/day13.rs:33 | If some presses reach the prize, Cramer's numerator is B's presses times the determinant |
| Day13.SolveFindsSolution | src/day13.rs:33-39 | Any presses that reach the prize are exactly what the solver returns |
| Day13.UniquePresses | src/day13.rs:33-39 | With a nonzero determinant there is at most one way to reach the prize |
| Day13.SolveNoneIffUnreachable | src/day13.rs:33-39 | The solver fails exactly when no combination of presses reaches the prize |
| Day13.NegativePressesCounted | src/day13.rs:33-37 | For the machine A=(1,1), B=(2,1), prize (1,2) the solver as written accepts 3 presses of A and -1 of B |
| Day13.Presses | src/day13.rs:33-37 | Whenever the corrected solver returns presses, they reach the prize, and they are never negative |
| Day13.PressesExact | src/day13.rs:33-37 | The corrected solver returns `(a, b)` exactly when `a` and `b` are nonnegative and reach the prize |
| Day13.Spend | src/day13.rs:37 | A machine costs nothing exactly when it cannot be won or is won with no presses |
| Day13.SpendIsCostOfWin | src/day13.rs:37 | For any nonnegative presses that win the prize, the spend is 3 per A press plus 1 per B press |
| Day13.SpendAsWritten | src/day13.rs:33-38 | The source charges `3a + b` for any integer presses `a`, `b` that reach the prize, and nothing for an unreachable prize; it differs from the corrected spend exactly when the accepted solution has a negative press and a nonzero cost |
| Day13.SpendsAsWritten | src/day13.rs:31-40 | One source spend per machine, in input order; each agrees with the corrected spend of its machine whenever the accepted solution has no negative press |
| Day13.AllSolvableTail | src/day13.rs:31 | Dropping the first machine keeps every machine solvable and drops the first spend |
| Day13.MinSpendAsWritten | src/day13.rs:29-42 | The source's total is the sum over the machines of the source's spend: `3a + b` for every accepted solution, negative presses included, and 0 for a machine the solver rejects |
| Day13.MinSpendForMostPrizes | src/day13.rs:29-42 | The corrected total is the sum over the machines of the corrected spend. It is at least each machine's spend, and it is zero exactly when every machine's spend is zero |
| Day13.SpendAgrees | src/day13.rs:29-42 | When every accepted solution has nonnegative presses, the corrected total equals the source's total |
| Day13.NegativePressesPaid | src/day13.rs:29-42 | On the machine A=(1,1), B=(2,1), prize (1,2) the source pays 8 tokens; the corrected model pays none |
| Day13.ExampleSecondLost | src/day13.rs:53-55 | The second example machine cannot be won: the checked quotients miss the prize |
| Day13.ExampleFourthLost | src/day13.rs:61-63 | The fourth example machine cannot be won |
| Day13.ExampleSpends | src/day13.rs:49-63 | The example machines cost 280, 0, 200 and 0 tokens |
| Day13.TotalOfFour | src/day13.rs:41 | The total over four machines is their four spends added up |
| Day13.ExampleOne | src/day13.rs:65-68 | The corrected total for the worked example is 480 tokens |
| Day13.FarFirstLost | src/day13.rs:48-51 | With the prizes moved far away, the first machine cannot be won |
| Day13.FarSecondWon | src/day13.rs:48-55 | With the prizes moved far away, the second machine costs 459236326669 tokens |
| Day13.FarThirdLost | src/day13.rs:48-59 | With the prizes moved far away, the third machine cannot be won |
| Day13.FarFourthWon | src/day13.rs:48-63 | With the prizes moved far away, the fourth machine costs 416082282239 tokens |
| Day13.ExampleTwo | src/day13.rs:70-73 | The corrected total for the example with the prizes moved far away is 875318608908 tokens |
| Day13.WonNonnegative | src/day13.rs:33-37 | A machine won with nonnegative presses has an accepted solution with no negative press |
| Day13.NonnegativeOfFour | src/day13.rs:31-40 | Four machines that are each solvable with no negative accepted presses satisfy both conditions as a list |
| Day13.ExampleEachNonnegative | src/day13.rs:49-63 | Each example machine's accepted solution, if any, has no negative press |
| Day13.ExampleNonnegative | src/day13.rs:49-63 | No accepted solution of the worked example has a negative press |
| Day13.ExampleOneAsWritten | src/day13.rs:65-68 | The source's own total for the worked example is 480 tokens |
| Day13.FarFirstNone | src/day13.rs:48-51 | With the prizes moved far away, the solver rejects the first machine |
| Day13.FarThirdNone | src/day13.rs:48-59 | With the prizes moved far away, the solver rejects the third machine |
| Day13.FarEachNonnegative | src/day13.rs:48-63 | With the prizes moved far away, each accepted solution, if any, has no negative press |
| Day13.FarNonnegative | src/day13.rs:48-63 | With the prizes moved far away, no accepted solution has a negative press |
| Day13.ExampleTwoAsWritten | src/day13.rs:70-73 | The source's own total for the example with the prizes moved far away is 875318608908 tokens |
| Day14.Wrap | src/day14.rs:24-35 | A robot on the floor, moving no more than one floor length a second, lands back on the floor, at its position plus velocity modulo the floor length |
| Day14.MoveRobot | src/day14.rs:23-35 | One second keeps the velocity and moves each coordinate by the velocity, corrected by at most one floor length; a robot on the floor stays on it at position plus velocity modulo the size |
| Day14.MoveRobots | src/day14.rs:22-37 | Every robot keeps its velocity and, starting on the floor, stays on it at its position plus velocity modulo the floor size |
| Day14.MoveFor | src/day14.rs:72-74 | After any number of seconds the robots keep their velocities and stay on the floor |
| Day14.ModAdd | src/day14.rs:24-35 | Adding to a residue is adding to the number it is the residue of |
| Day14.ModShift | src/day14.rs:24-35 | Adding whole floor lengths does not change the residue |
| Day14.ModUnique | src/day14.rs:24-35 | The remainder in `[0, len)` is the only one |
| Day14.ClosedFormStep | src/day14.rs:72-74 | One second and then `n - 1` more land where `n` seconds of velocity land, modulo the floor length |
| Day14.ClosedFormSucc | src/day14.rs:72-74 | If the robots after one second reach the closed form for `n - 1` more, the start reaches it for `n` |
| Day14.MoveForClosedForm | src/day14.rs:72-74 | After `n` seconds a robot stands at its start plus `n` times its velocity, modulo the floor size |
| Day14.RobotsInArea | src/day14.rs:39-41 | The count is none exactly when no robot is in the rectangle, and all exactly when every robot is |
| Day14.OnMiddle | src/day14.rs:75-78 | The robots on the middle column or row are counted at most once each |
| Day14.QuadrantsPartition | src/day14.rs:75-78 | The four quadrants and the middle lines split the floor: every robot on it is counted exactly once among them |
| Day14.SafetyFactor | src/day14.rs:70-79 | For any robots, including ones that start off the floor or move faster than the single wrap undoes, the safety factor is zero exactly when one of the four quadrants of the moved robots is empty. When every robot starts on the floor, a nonzero factor also leaves at least four robots off the middle lines |
| Day14.CertifiedAt | src/day14.rs:72-74 | A certificate states each robot's final position as its start plus `n` velocities less whole floor lengths, on the floor |
| Day14.CertifiedMoves | src/day14.rs:72-74 | A certified list of final positions is exactly what the simulation produces |
| Day14.ExampleMoves | src/day14.rs:72-74 | After 100 seconds the example robots stand at the listed positions |
| Day14.ExampleQuadrants | src/day14.rs:75-78 | After 100 seconds the example's quadrants hold 1, 3, 4 and 1 robots |
| Day14.ExampleSafety | src/day14.rs:128-131 | The worked example's safety factor after 100 seconds is 12 |
| Day14.RowSumIncrement | src/day14.rs:52 | Adding one robot to a cell of a row raises the row's total by one |
| Day14.MapSumIncrement | src/day14.rs:52 | Adding one robot to a cell raises the map's total by one |
| Day14.ZeroRow | src/day14.rs:47-49 | A fresh row has the floor's width and holds no robots |
| Day14.ZeroMap | src/day14.rs:44-50 | A fresh map has the floor's size and holds no robots |
| Day14.PlotMap | src/day14.rs:43-55 | Each cell holds the number of robots standing on it, and the cells add up to all robots |
| Day15.ParseItem | src/day15.rs:55-61 | A known map character becomes the item drawn with that character; a loaded map never holds carton halves directly |
| Day15.Widen | src/day15.rs:62-72 | In wide mode a carton becomes a left and a right half, a wall two walls, and the robot or a free cell gets a free cell to its right |
| Day15.LoadRow | src/day15.rs:52-83 | A line loads exactly when every character is known; narrow rows hold the parsed items cell for cell, wide rows hold each item's widened pair |
| Day15.LoadRowNarrow | src/day15.rs:54-80 | A narrow row that matches the line cell by cell is what loading the line gives |
| Day15.LoadRows | src/day15.rs:52-83 | The map loads exactly when every line loads, and then row `j` is line `j` loaded |
| Day15.LoadRowsExact | src/day15.rs:52-83 | Rows that are each what their line loads to are what the lines load to |
| Day15.RobotInLine | src/day15.rs:62-80 | Returns the last robot in the line, or none exactly when the line has none |
| Day15.RobotIn | src/day15.rs:50-91 | The kept robot position holds `@`, with no robot after it in reading order; there is none exactly when the map has no robot |
| Day15.ParseInstructions | src/day15.rs:84-90 | The text parses exactly when every character other than a line break is an instruction, giving at most one instruction per character |
| Day15.ParseInstructionsExact | src/day15.rs:84-90 | Text in which every character is an instruction reads as exactly those instructions |
| Day15.Render | src/day15.rs:37-46 | One character per instruction, the character the instruction is written with |
| Day15.ParseRender | src/day15.rs:84-90 | Written-out instructions read back as the same instructions |
| Day15.ParseSkipsBreaks | src/day15.rs:84 | A line break anywhere in the instruction text changes nothing |
| Day15.LoadData | src/day15.rs:48-92 | Loading succeeds exactly when every map line loads, some robot exists and every instruction parses; the robot's column is doubled in wide mode and the robot stands there |
| Day15.Next | src/day15.rs:130-135 | Up and down change only the row by one; left and right only the column by one |
| Day15.CanMove | src/day15.rs:129-175 | A possible move has the cell ahead on the map, free or holding a carton or carton half |
| Day15.Swap | src/day15.rs:197-200 | The item lands on the free cell and leaves a free cell behind; nothing else changes and every item keeps its count |
| Day15.MoveItem | src/day15.rs:177-201 | A push keeps the grid's shape and every item's count, and changes nothing behind the pushed item |
| Day15.PushIntoFree | src/day15.rs:197-200 | Pushing an item into a free cell swaps the two |
| Day15.PushCarton | src/day15.rs:184-200 | Pushing against a whole carton first pushes the carton; once that frees the cell, the item follows |
| Day15.NarrowByTally | src/day15.rs:177-201 | Keeping every item's count keeps a warehouse free of carton halves |
| Day15.TallyPositive | src/day15.rs:177-201 | The item in any cell is counted at least once |
| Day15.NarrowMoveLands | src/day15.rs:177-201 | In a narrow warehouse a push that can happen does happen: the item lands on the cell ahead and its own cell becomes free |
| Day15.SwapKeepsWalls | src/day15.rs:197-200 | Moving an item other than a wall into a free cell keeps every wall |
| Day15.NarrowMoveKeepsWalls | src/day15.rs:177-201 | A narrow push of anything but a wall never creates, moves or removes a wall |
| Day15.Execute | src/day15.rs:107-124 | One instruction keeps the grid's shape and the item counts; the robot steps to the next cell exactly when it can move, and nothing happens otherwise |
| Day15.Follow | src/day15.rs:104-127 | Following instructions keeps the grid's shape and every item's count |
| Day15.FollowStepBound | src/day15.rs:104-127 | The robot ends at most one step per instruction from where it started |
| Day15.NarrowExecute | src/day15.rs:107-124 | In a narrow warehouse the robot is where the coordinates say after each instruction, no carton halves appear and the walls stay put |
| Day15.NarrowFollow | src/day15.rs:104-127 | In a narrow warehouse the robot is where the coordinates say after all instructions, no carton halves appear and the walls stay put |
| Day15.GpsRowSet | src/day15.rs:207-212 | Changing one cell of a row changes the row's sum by that cell's change of weight, if it is among the cells summed |
| Day15.GpsRowsSet | src/day15.rs:207-212 | Changing one cell changes the sum over the first rows by that cell's change of weight, if its row is among them |
| Day15.GpsSet | src/day15.rs:207-212 | Changing one cell changes the GPS sum by exactly the change of that cell's weight |
| Day15.GpsRowsNone | src/day15.rs:209 | Rows without cartons or left halves add nothing |
| Day15.GpsRowNone | src/day15.rs:209 | A row segment without cartons or left halves adds nothing |
| Day15.GpsNone | src/day15.rs:207-212 | Without cartons and left halves of wide cartons the GPS sum is zero |
| Day15.Gps | src/day15.rs:207-212 | Every carton or left half adds its own weight `100 * y + x` to the sum, and the sum is 0 exactly when every weight is 0 |
| Day15.SumOfGpsCoordinates | src/day15.rs:203-213 | An answer exists exactly when loading succeeds; it is the GPS sum of the warehouse after following every instruction, which keeps the shape and all item counts |
| Day15Example.ExampleRows | src/day15.rs:219-226 | The small example's map lines load, in narrow mode, into the literal 8 by 8 warehouse |
| Day15Example.ExampleRobot | src/day15.rs:221 | The small example's robot stands in column 2 of row 2 |
| Day15Example.ExampleParse | src/day15.rs:228 | The small example's instruction line reads as its fifteen instructions |
| Day15Example.ExampleLoads | src/day15.rs:219-228 | Loading the small example gives the robot at (2, 2), the literal warehouse and the fifteen instructions |
| Day15Example.FollowStep | src/day15.rs:105-126 | Following one instruction and then the rest is following the rest from where the first instruction leads |
| Day15Example.ExampleFollow | src/day15.rs:219-228 | After all fifteen instructions the robot stands at (4, 4) in the literal final warehouse |
| Day15Example.ExampleGps | src/day15.rs:207-212 | The final warehouse's GPS sum is 2028 |
| Day15Example.ExampleOne | src/day15.rs:253 | The small example gives a GPS sum of 2028 |

## Left out

- The regular-expression scan in `add_all_muls` (`src/day03.rs:4-17`): it depends on the `regex` crate's leftmost, non-overlapping matching, which is a foreign engine. Only `clean_do_donts` is modelled.
- Day14.SafetyFactor: the floor is taken to be at least one cell wide and tall. For a zero or negative size Rust's `/` truncates toward zero, where Dafny's rounds down, and that case is not modelled.
- `find_picture` and `print_map` in day 14 (`src/day14.rs:57-105`): a visual heuristic with an unbounded search and terminal output.
- `print_map` and the `Display` impls in day 15 (`src/day15.rs:16-46`, `src/day15.rs:94-102`): debug output. The instruction characters are kept only as `Day15.Render`, as the inverse of parsing.
- The `part_1`/`part_2` tests that read `res/dayNN.txt`: file input with data that is not part of this model. `src/template.rs` has no logic.
- Splitting the input text into lines, blank-line sections and whitespace-separated tokens is library work. The loaders take lines, or the tokens of each line, as their input. Token parsing itself is modelled (`Decimal.ParseU64`, `Decimal.ParseI64`, `Text.Split`).
- The day 2, day 7, day 11 and day 14 `load_data` functions: each is the library split above followed by one `parse` per token. Reports, calibrations, stones and robots are taken as already-parsed values. Day 14's `p=x,y v=dx,dy` line format is not modelled.
- Day 13's `load_data` is modelled only as the prize offset (`Day13.WithOffset`). The fixed `Button A: X+` prefixes are library slicing.
- Machine-width arithmetic: the model uses unbounded integers throughout. It does not model the `i8` levels of day 2, which reject values outside -128..127 when parsing. It does not model the `u64` overflow of day 7's `concat_operands` and day 11's `stone * 2024`. It does not model the `i64` products of day 13, or the `usize` sums. It does not model the `i8` difference `b - a` of day 2 (`src/day02.rs:17`), which overflows for levels such as 127 and -128.
- The worked examples whose inputs are grids or long lists: day 2 (2 and 4), day 4 (18 and 9), day 5 (143 and 123), day 6 (41 and 6), day 7's totals (3749 and 11387; three of its lines are proved), day 8 (14 and 34), day 9 (1928 and 2858), day 10 (36 and 81), day 11 (55312 after 25 blinks; one blink is proved), day 12's five maps, and day 15's large example (10092 and 9021). Each would need the verifier to evaluate a large literal computation.
- Day05.CorrectUpdate: with cyclic rules the source's repair loop need not end. The model bounds it by a `fuel` count and answers `None` when the fuel runs out. The results are stated for the runs that finish.
- Day06.Travel: the guard's walk ends in the source only through its loop detector. The model bounds the number of steps by `fuel` and answers `None` when the fuel runs out.
- Day09.ChecksumCompactedDiskSmart: the contract names the disk the checksum is taken over only by what whole-file compaction keeps: every file, the total length, and file 0 at the front. That disk is the result of the `Day09.MoveFile` rounds, whose contracts fix each move. No closed form of the checksum is given.
- Day10.FindTrailEnd: the contracts prove that the reported ends are exactly the ends of hiking trails, as a set. They do not prove that each trail is reported exactly once, which is what part 2 counts.
- Day11.SplitStone: the source computes the back half as `stone - front * scale`. The model writes the remainder `stone % scale`, which is the same number.
- Day12.ExploreGroup: the contracts prove three things. The fill marks only cells of its own plant. Its area is the number of cells it marked. Its edges are those cells' fence sides. They do not prove that a group is exactly one connected region, or that the corner count equals the number of sides.
- Day12.TotalFencingPrice: the contract is a bound, at most four times the sum of the squared areas. The exact edges of each group are proved in `Day12.ExploreGroup`, and their total over the map in `Day12.GroupsFenceMap`. The price is not related to an independent definition of the regions, since connectivity is not modelled.
- Day12.DiscountedFencingPrice: the contract is a bound, at most four times the sum of the squared areas. Corners are bounded by four per cell but not proved equal to the number of straight sides.
- Rectangular maps: day 4 (`Day04.FindXmas`, `Day04.FindCrosses` and the eight `Day04.Match` readings), day 6 (`Day06.Valid`), day 10 (`Day10.FindTrailEnd` and the scans) and day 12 (`Day12.Marking`) require every row to be as long as the first. The source reads the width from the first row (`src/day04.rs:81`, `src/day04.rs:110`, `src/day10.rs:17`, `src/day10.rs:45`, `src/day12.rs:16`, `src/day12.rs:111`). On a ragged map it skips the extra cells of longer rows and indexes past the end of shorter ones. Ragged maps are not modelled.
- Bytes and characters: the source reads the maps of days 8, 10, 12 and 15 byte by byte (`src/day08.rs:20`, `src/day10.rs:4`, `src/day12.rs:11`, `src/day15.rs:54`). The model reads characters. The two agree on ASCII input; a character outside ASCII is several cells in the source and one in the model. Day 10's heights are modelled for characters from `'0'` up to code 255. Below `'0'` the source's `u8` subtraction fails.
- Day12.Marking: the map is taken to hold upper-case letters, with counted cells in lower case. The source treats any byte below `b'a'` as unvisited and adds 32 to mark it. Digits, punctuation and other non-letter input are not modelled.
- Day13.Solve: the source divides by zero when `a_x` or the determinant is 0. Both are preconditions (`Solvable`).
- Day15.CanMove: the source relies on the warehouse being enclosed by walls and would index outside the grid otherwise. The model treats a step off the grid as blocked.
- Day15.MoveItem: in wide mode the pairing of carton halves is not proved to be kept. Only the item counts and the cells behind the push are proved for both modes. Walls are proved to stay put in narrow mode only (`Day15.NarrowMoveKeepsWalls`).
- `HashMap` and `HashSet` iteration order: the model uses Dafny maps and sets, and no result depends on the order.

## Findings

| source | as written | input that shows it | evidently intended | confidence | as-written member | corrected member |
|---|---|---|---|---|---|---|
| src/day13.rs:33-37 | A solution is accepted whenever both equations hold, including one with a negative number of presses, and `3a + b` is added to the total | Buttons A=(1,1), B=(2,1), prize (1,2): `b = -1`, `a = 3`, so 8 tokens are added for a prize that no sequence of presses reaches | A prize counts only when both press counts are nonnegative; otherwise the machine costs nothing | not executed; the puzzle inputs may never contain such a machine | Day13.NegativePressesCounted, Day13.NegativePressesPaid, Day13.MinSpendAsWritten | Day13.PressesExact, Day13.MinSpendForMostPrizes |
