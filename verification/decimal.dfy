/**
 Decimal digit strings: powers of ten, the value of a digit string, the
 canonical rendering of a natural number, and Rust's integer `from_str`
 for `u64` and `i64` (an optional sign, then one or more ASCII digits,
 leading zeros allowed, value within the type's range).
 */
module Decimal {
  import opened Common

  function Pow10(n: nat): (r: nat)
    ensures r >= 1
  {
    if n == 0 then 1 else 10 * Pow10(n - 1)
  }

  lemma {:induction false} Pow10Add(a: nat, b: nat)
    ensures Pow10(a + b) == Pow10(a) * Pow10(b)
    decreases b
  {
    if b > 0 {
      Pow10Add(a, b - 1);
      calc {
        Pow10(a + b);
        10 * Pow10(a + b - 1);
        10 * (Pow10(a) * Pow10(b - 1));
        Pow10(a) * (10 * Pow10(b - 1));
      }
    }
  }

  predicate IsDigit(c: char)
  {
    '0' <= c <= '9'
  }

  predicate AllDigits(s: string)
  {
    forall i :: 0 <= i < |s| ==> IsDigit(s[i])
  }

  /** The same check, one character at a time from the end: it is what the parsers use. */
  predicate DigitString(s: string)
  {
    |s| == 0 || (IsDigit(s[|s| - 1]) && DigitString(s[..|s| - 1]))
  }

  lemma {:induction false} DigitStringIff(s: string)
    ensures DigitString(s) <==> AllDigits(s)
    decreases |s|
  {
    if |s| > 0 {
      var p := s[..|s| - 1];
      DigitStringIff(p);
      assert forall i :: 0 <= i < |p| ==> p[i] == s[i];
    }
  }

  /** A digit string contains no character that is not a digit. */
  lemma DigitsExclude(s: string, c: char)
    requires AllDigits(s) && !IsDigit(c)
    ensures c !in s
  {
    forall i | 0 <= i < |s|
      ensures s[i] != c
    {
    }
  }

  function DigitValue(c: char): (d: nat)
    requires IsDigit(c)
    ensures d < 10
  {
    (c as int) - ('0' as int)
  }

  function DigitChar(d: nat): (c: char)
    requires d < 10
    ensures IsDigit(c) && DigitValue(c) == d
  {
    (('0' as int) + d) as char
  }

  /** The number a string of decimal digits denotes (leading zeros allowed). */
  function Value(s: string): nat
    requires AllDigits(s)
  {
    if |s| == 0 then 0 else Value(s[..|s| - 1]) * 10 + DigitValue(s[|s| - 1])
  }

  lemma {:induction false} ValueBound(s: string)
    requires AllDigits(s)
    ensures Value(s) < Pow10(|s|)
    decreases |s|
  {
    if |s| > 0 {
      ValueBound(s[..|s| - 1]);
    }
  }

  lemma AllDigitsAppend(s: string, t: string)
    requires AllDigits(s) && AllDigits(t)
    ensures AllDigits(s + t)
  {
    forall i | 0 <= i < |s + t|
      ensures IsDigit((s + t)[i])
    {
      if i < |s| { assert (s + t)[i] == s[i]; } else { assert (s + t)[i] == t[i - |s|]; }
    }
  }

  lemma ValueSnoc(s: string, c: char)
    requires AllDigits(s) && IsDigit(c)
    ensures AllDigits(s + [c])
    ensures Value(s + [c]) == Value(s) * 10 + DigitValue(c)
  {
    AllDigitsAppend(s, [c]);
    assert (s + [c])[..|s|] == s;
  }

  lemma ShiftArith(vs: int, p: int, vt: int, d: int)
    ensures (vs * p + vt) * 10 + d == vs * (p * 10) + (vt * 10 + d)
  {
  }

  lemma {:induction false} ValueAppend(s: string, t: string)
    requires AllDigits(s) && AllDigits(t)
    ensures AllDigits(s + t)
    ensures Value(s + t) == Value(s) * Pow10(|t|) + Value(t)
    decreases |t|
  {
    AllDigitsAppend(s, t);
    if |t| == 0 {
      assert s + t == s;
    } else {
      var t', c := t[..|t| - 1], t[|t| - 1];
      assert t == t' + [c];
      assert s + t == (s + t') + [c];
      ValueAppend(s, t');
      ValueSnoc(s + t', c);
      ValueSnoc(t', c);
      ShiftArith(Value(s), Pow10(|t'|), Value(t'), DigitValue(c));
    }
  }

  /** The canonical rendering of `n`: no sign, no leading zero (Rust's `{}` format). */
  function Show(n: nat): (s: string)
    ensures |s| >= 1 && AllDigits(s)
  {
    if n < 10 then [DigitChar(n)] else Show(n / 10) + [DigitChar(n % 10)]
  }

  /** Number of decimal digits of `n` (`0` has one digit). */
  function NumDigits(n: nat): (d: nat)
    ensures d >= 1
  {
    if n < 10 then 1 else 1 + NumDigits(n / 10)
  }

  lemma {:induction false} ValueShow(n: nat)
    ensures Value(Show(n)) == n
    ensures |Show(n)| == NumDigits(n)
  {
    if n >= 10 {
      ValueShow(n / 10);
      var s := Show(n);
      assert s[..|s| - 1] == Show(n / 10);
    }
  }

  lemma {:induction false} NumDigitsBounds(n: nat)
    requires n >= 1
    ensures Pow10(NumDigits(n) - 1) <= n < Pow10(NumDigits(n))
  {
    if n >= 10 {
      NumDigitsBounds(n / 10);
    }
  }

  /** The canonical rendering never starts with `0`, except for zero itself. */
  lemma {:induction false} ShowNoLeadingZero(n: nat)
    requires n >= 1
    ensures Show(n)[0] != '0'
  {
    if n >= 10 {
      ShowNoLeadingZero(n / 10);
    }
  }

  const U64_MAX: nat := 0xFFFF_FFFF_FFFF_FFFF
  const I64_MIN: int := -0x8000_0000_0000_0000
  const I64_MAX: int := 0x7FFF_FFFF_FFFF_FFFF

  /** Rust's `u64::from_str`: an optional `+`, at least one digit, only digits, at most `u64::MAX`. */
  function ParseU64(s: string): (r: Option<nat>)
    ensures r.Some? ==> r.value <= U64_MAX
  {
    var body := if |s| > 0 && s[0] == '+' then s[1..] else s;
    if |body| == 0 || !DigitString(body) then None
    else
      DigitStringIff(body);
      if Value(body) > U64_MAX then None else Some(Value(body))
  }

  /** Rust's `i64::from_str`: an optional `+` or `-`, at least one digit, only digits, within `i64`. */
  function ParseI64(s: string): (r: Option<int>)
    ensures r.Some? ==> I64_MIN <= r.value <= I64_MAX
  {
    var negative := |s| > 0 && s[0] == '-';
    var body := if |s| > 0 && (s[0] == '+' || s[0] == '-') then s[1..] else s;
    if |body| == 0 || !DigitString(body) then None
    else
      DigitStringIff(body);
      var magnitude: int := Value(body);
      var v := if negative then -magnitude else magnitude;
      if v < I64_MIN || v > I64_MAX then None else Some(v)
  }

  /** Parsing the rendering of a number gives the number back, with or without a leading `+`. */
  lemma ParseU64Show(n: nat)
    requires n <= U64_MAX
    ensures ParseU64(Show(n)) == Some(n)
    ensures ParseU64("+" + Show(n)) == Some(n)
  {
    ValueShow(n);
    DigitStringIff(Show(n));
    assert ("+" + Show(n))[1..] == Show(n);
  }

  /** Signed round trip: `-` followed by the rendering of `n` parses to `-n`. */
  lemma ParseI64Show(n: int)
    requires I64_MIN <= n <= I64_MAX
    ensures ParseI64(if n < 0 then "-" + Show(-n) else Show(n)) == Some(n)
  {
    if n < 0 {
      var t := Show(-n);
      ValueShow(-n);
      DigitStringIff(t);
      var s := "-" + t;
      assert s[0] == '-' && s[1..] == t;
      assert Value(t) == -n;
    } else {
      var t := Show(n);
      ValueShow(n);
      DigitStringIff(t);
      assert t[0] != '-' && t[0] != '+' by { assert IsDigit(t[0]); }
    }
  }
}
