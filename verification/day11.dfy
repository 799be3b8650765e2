/**
 Day 11: stones that change on every blink. A 0 becomes 1; a stone with an
 even number of digits splits into its front and back halves; any other
 stone is multiplied by 2024. The question is how many stones there are
 after a number of blinks, computed per stone with a memo table.
 */
module Day11 {
  import opened Decimal

  /** Rust's `ilog10() + 1`; `ilog10` panics on zero. */
  function CountDigits(n: nat): (d: nat)
    requires n >= 1
    ensures d >= 1 && Pow10(d - 1) <= n < Pow10(d)
  {
    NumDigitsBounds(n);
    NumDigits(n)
  }

  /**
   The digits of `stone` cut in the middle: `front` followed by `back`, each
   `digits / 2` long. The source computes `back` as `stone - front * scale`,
   which is the remainder written here.
   */
  function SplitStone(stone: nat, digits: nat): (halves: (nat, nat))
    requires digits >= 1
    ensures halves.0 * Pow10(digits / 2) + halves.1 == stone
    ensures halves.1 < Pow10(digits / 2)
  {
    var scale := Pow10(digits / 2);
    DivModParts(stone, scale);
    (stone / scale, stone % scale)
  }

  lemma DivModParts(n: nat, d: nat)
    requires d >= 1
    ensures 0 <= n / d && 0 <= n % d < d && (n / d) * d + n % d == n
  {
  }

  /** The number of stones one stone becomes after `iterations` blinks, by the source's recursion. */
  function CountStone(stone: nat, iterations: nat): (count: nat)
    ensures count >= 1
    ensures iterations == 0 ==> count == 1
    decreases iterations
  {
    if iterations == 0 then 1
    else if stone == 0 then CountStone(1, iterations - 1)
    else
      var digits := CountDigits(stone);
      if digits % 2 == 0 then
        var halves := SplitStone(stone, digits);
        CountStone(halves.0, iterations - 1) + CountStone(halves.1, iterations - 1)
      else CountStone(stone * 2024, iterations - 1)
  }

  // ---------------------------------------------------------------- reference: the row of stones

  /** What one stone becomes on one blink. */
  function Blink(stone: nat): (r: seq<nat>)
    ensures 1 <= |r| <= 2
    ensures stone == 0 ==> r == [1]
    ensures stone != 0 && CountDigits(stone) % 2 != 0 ==> r == [stone * 2024]
  {
    if stone == 0 then [1]
    else
      var digits := CountDigits(stone);
      if digits % 2 == 0 then
        var halves := SplitStone(stone, digits);
        [halves.0, halves.1]
      else [stone * 2024]
  }

  /** One blink of a whole row, in order. */
  function BlinkAll(stones: seq<nat>): seq<nat>
  {
    if |stones| == 0 then [] else Blink(stones[0]) + BlinkAll(stones[1..])
  }

  function Blinks(stones: seq<nat>, n: nat): seq<nat>
    decreases n
  {
    if n == 0 then stones else Blinks(BlinkAll(stones), n - 1)
  }

  /** The per-stone counts added up over a row. */
  function CountAll(stones: seq<nat>, iterations: nat): nat
  {
    if |stones| == 0 then 0 else CountStone(stones[0], iterations) + CountAll(stones[1..], iterations)
  }

  lemma {:induction false} CountAllAppend(a: seq<nat>, b: seq<nat>, n: nat)
    ensures CountAll(a + b, n) == CountAll(a, n) + CountAll(b, n)
    decreases |a|
  {
    if |a| == 0 {
      assert a + b == b;
    } else {
      assert (a + b)[1..] == a[1..] + b;
      CountAllAppend(a[1..], b, n);
    }
  }

  /** One blink of a row, counted `n` more times, is the row counted `n + 1` times. */
  lemma {:induction false} CountAllBlink(stones: seq<nat>, n: nat)
    ensures CountAll(BlinkAll(stones), n) == CountAll(stones, n + 1)
    decreases |stones|
  {
    if |stones| > 0 {
      var s := stones[0];
      CountAllBlink(stones[1..], n);
      CountAllAppend(Blink(s), BlinkAll(stones[1..]), n);
      var b := Blink(s);
      if |b| == 1 {
        assert b[1..] == [];
      } else {
        assert b[1..] == [b[1]];
        assert b[1..][1..] == [];
      }
    }
  }

  lemma {:induction false} BlinksLength(stones: seq<nat>, n: nat)
    ensures |Blinks(stones, n)| == CountAll(stones, n)
    decreases n
  {
    if n == 0 {
      CountAllOnes(stones);
    } else {
      BlinksLength(BlinkAll(stones), n - 1);
      CountAllBlink(stones, n - 1);
    }
  }

  lemma {:induction false} CountAllOnes(stones: seq<nat>)
    ensures CountAll(stones, 0) == |stones|
    decreases |stones|
  {
    if |stones| > 0 {
      CountAllOnes(stones[1..]);
    }
  }

  /** The recursion counts exactly the stones the row of stones holds after `n` blinks. */
  lemma CountStoneIsRowLength(stone: nat, n: nat)
    ensures CountStone(stone, n) == |Blinks([stone], n)|
  {
    BlinksLength([stone], n);
    assert [stone][1..] == [];
  }

  // ---------------------------------------------------------------- memo table

  /** Every entry of the table is the recursion's value for its key. */
  ghost predicate MemoValid(seen: map<(nat, nat), nat>)
  {
    forall key :: key in seen ==> seen[key] == CountStone(key.0, key.1)
  }

  /** One level of the recursion for a stone with an even number of digits. */
  lemma CountStoneSplit(stone: nat, iterations: nat, halves: (nat, nat), front: nat, back: nat)
    requires stone != 0 && iterations > 0 && CountDigits(stone) % 2 == 0
    requires halves == SplitStone(stone, CountDigits(stone))
    requires front == CountStone(halves.0, iterations - 1) && back == CountStone(halves.1, iterations - 1)
    ensures CountStone(stone, iterations) == front + back
  {
  }

  /** One level of the recursion for a non-zero stone with an odd number of digits. */
  lemma CountStoneScale(stone: nat, iterations: nat, scaled: nat)
    requires stone != 0 && iterations > 0 && CountDigits(stone) % 2 != 0
    requires scaled == CountStone(stone * 2024, iterations - 1)
    ensures CountStone(stone, iterations) == scaled
  {
  }

  /** One level of the recursion for the stone `0`. */
  lemma CountStoneZero(iterations: nat, one: nat)
    requires iterations > 0 && one == CountStone(1, iterations - 1)
    ensures CountStone(0, iterations) == one
  {
  }

  /** Storing a correct count keeps the table correct. */
  lemma MemoStore(seen: map<(nat, nat), nat>, stone: nat, iterations: nat, count: nat)
    requires MemoValid(seen) && count == CountStone(stone, iterations)
    ensures MemoValid(seen[(stone, iterations) := count])
  {
  }

  /** The source's memoised recursion: a table hit answers at once; every computed count is stored. */
  method CountStoneMemo(stone: nat, iterations: nat, seen: map<(nat, nat), nat>)
    returns (count: nat, seen': map<(nat, nat), nat>)
    requires MemoValid(seen)
    ensures count == CountStone(stone, iterations)
    ensures MemoValid(seen') && (stone, iterations) in seen' && seen.Keys <= seen'.Keys
    decreases iterations, 1
  {
    if (stone, iterations) in seen {
      return seen[(stone, iterations)], seen;
    }
    if iterations == 0 {
      count, seen' := 1, seen;
    } else if stone == 0 {
      count, seen' := CountStoneMemo(1, iterations - 1, seen);
      CountStoneZero(iterations, count);
    } else {
      var digits := CountDigits(stone);
      if digits % 2 == 0 {
        count, seen' := CountHalvesMemo(stone, iterations, digits, seen);
      } else {
        count, seen' := CountStoneMemo(stone * 2024, iterations - 1, seen);
        CountStoneScale(stone, iterations, count);
      }
    }
    MemoStore(seen', stone, iterations, count);
    seen' := seen'[(stone, iterations) := count];
  }

  /** The even-digits branch of the memoised recursion: both halves, the second reusing the first's table. */
  method CountHalvesMemo(stone: nat, iterations: nat, digits: nat, seen: map<(nat, nat), nat>)
    returns (count: nat, seen': map<(nat, nat), nat>)
    requires MemoValid(seen) && stone != 0 && iterations > 0
    requires digits == CountDigits(stone) && digits % 2 == 0
    ensures count == CountStone(stone, iterations)
    ensures MemoValid(seen') && seen.Keys <= seen'.Keys
    decreases iterations, 0
  {
    var halves := SplitStone(stone, digits);
    var front, seen1 := CountStoneMemo(halves.0, iterations - 1, seen);
    var back, seen2 := CountStoneMemo(halves.1, iterations - 1, seen1);
    CountStoneSplit(stone, iterations, halves, front, back);
    count, seen' := front + back, seen2;
  }

  /** The total over all stones, sharing one memo table. */
  method CountStones(stones: seq<nat>, iterations: nat) returns (total: nat)
    ensures total == CountAll(stones, iterations)
    ensures total == |Blinks(stones, iterations)|
  {
    var seen: map<(nat, nat), nat> := map[];
    total := 0;
    var i := 0;
    while i < |stones|
      invariant 0 <= i <= |stones| && MemoValid(seen)
      invariant total + CountAll(stones[i..], iterations) == CountAll(stones, iterations)
    {
      assert stones[i..][1..] == stones[i + 1..];
      var count;
      count, seen := CountStoneMemo(stones[i], iterations, seen);
      total := total + count;
      i := i + 1;
    }
    BlinksLength(stones, iterations);
  }

  /** One blink of the row `0 1 10 99 999` gives seven stones. */
  lemma ExampleOneBlink()
    ensures CountAll([0, 1, 10, 99, 999], 1) == 7
  {
    assert CountDigits(1) == 1 && CountDigits(10) == 2 && CountDigits(99) == 2 && CountDigits(999) == 3;
  }
}
