/** Decimal numerals as text: their value, and the shortest numeral of a number. */
module Decimals {

  predicate IsDigit(c: char) { '0' <= c <= '9' }

  predicate IsNumeral(s: string) { forall i :: 0 <= i < |s| ==> IsDigit(s[i]) }

  function DigitValue(c: char): int { c as int - '0' as int }

  function DigitChar(d: int): (c: char)
    requires 0 <= d < 10
    ensures IsDigit(c) && DigitValue(c) == d
  {
    ('0' as int + d) as char
  }

  function Pow10(n: nat): (p: nat)
    ensures p >= 1
  {
    if n == 0 then 1 else 10 * Pow10(n - 1)
  }

  /** The number a string of digits stands for; the empty string stands for zero. */
  function Value(s: string): int {
    if s == [] then 0 else 10 * Value(s[..|s| - 1]) + DigitValue(s[|s| - 1])
  }

  /** `String(n)` for a non-negative integer. */
  function Print(n: nat): (s: string)
    ensures s != [] && IsNumeral(s) && Value(s) == n
    ensures s[0] == '0' ==> |s| == 1
  {
    if n < 10 then [DigitChar(n)]
    else
      var front := Print(n / 10);
      assert (front + [DigitChar(n % 10)])[..|front|] == front;
      front + [DigitChar(n % 10)]
  }

  function Zeros(n: nat): (s: string)
    ensures |s| == n && IsNumeral(s)
  {
    if n == 0 then [] else ['0'] + Zeros(n - 1)
  }

  /** `s.padStart(n, '0')`. */
  function PadStart(s: string, n: nat): (r: string)
    ensures IsNumeral(s) ==> IsNumeral(r)
  {
    if |s| >= n then s else Zeros(n - |s|) + s
  }

  /** `s.padEnd(n, '0')`. */
  function PadEnd(s: string, n: nat): (r: string)
    ensures IsNumeral(s) ==> IsNumeral(r)
  {
    if |s| >= n then s else s + Zeros(n - |s|)
  }

  /** A numeral without the zeros in front of its first significant digit. */
  function StripZeros(s: string): string {
    if |s| <= 1 || s[0] != '0' then s else StripZeros(s[1..])
  }

  lemma ValueStep(s: string, c: char)
    ensures Value(s + [c]) == 10 * Value(s) + DigitValue(c)
  {
    assert (s + [c])[..|s|] == s;
  }

  lemma ShiftPlace(x: int, p: int, y: int, d: int)
    ensures 10 * (x * p + y) + d == x * (10 * p) + (10 * y + d)
  {
    assert x * (10 * p) == 10 * (x * p);
  }

  lemma {:induction false} ValueOfConcat(a: string, b: string)
    ensures Value(a + b) == Value(a) * Pow10(|b|) + Value(b)
  {
    if b == [] {
      assert a + b == a;
    } else {
      var front, last := b[..|b| - 1], b[|b| - 1];
      ValueOfConcat(a, front);
      ValueStep(a + front, last);
      ValueStep(front, last);
      ShiftPlace(Value(a), Pow10(|front|), Value(front), DigitValue(last));
      assert Pow10(|b|) == 10 * Pow10(|front|);
      hide Value, Pow10, DigitValue;
      assert b == front + [last] && a + b == (a + front) + [last];
    }
  }

  lemma {:induction false} ValueBound(s: string)
    requires IsNumeral(s)
    ensures 0 <= Value(s) < Pow10(|s|)
  {
    if s == [] {
    } else {
      ValueBound(s[..|s| - 1]);
    }
  }

  lemma {:induction false} ZerosAreZero(n: nat)
    ensures Value(Zeros(n)) == 0
  {
    if n == 0 {
    } else {
      ZerosAreZero(n - 1);
      ValueOfConcat(['0'], Zeros(n - 1));
    }
  }

  /** Leading zeros do not change a numeral's value. */
  lemma PadStartValue(s: string, n: nat)
    ensures Value(PadStart(s, n)) == Value(s)
  {
    if |s| < n {
      ZerosAreZero(n - |s|);
      ValueOfConcat(Zeros(n - |s|), s);
    }
  }

  lemma SplitLast(s: string)
    requires IsNumeral(s) && s != []
    ensures s == s[..|s| - 1] + [s[|s| - 1]] && IsNumeral(s[..|s| - 1]) && IsDigit(s[|s| - 1])
    ensures Value(s) == 10 * Value(s[..|s| - 1]) + DigitValue(s[|s| - 1])
    ensures 0 <= DigitValue(s[|s| - 1]) <= 9
  {
    LastDigit(s);
    hide Value;
  }

  lemma LastDigit(s: string)
    requires s != []
    ensures Value(s) == 10 * Value(s[..|s| - 1]) + DigitValue(s[|s| - 1])
  {
    hide IsNumeral;
  }

  lemma SameDigit(a: char, b: char)
    requires DigitValue(a) == DigitValue(b)
    ensures a == b
  {
  }

  /** Numerals of equal length and equal value are equal. */
  lemma {:induction false} SameLengthSameValue(s: string, t: string)
    requires IsNumeral(s) && IsNumeral(t) && |s| == |t|
    requires Value(s) == Value(t)
    ensures s == t
  {
    if s == [] {
    } else {
      SplitLast(s);
      SplitLast(t);
      hide Value, IsNumeral;
      SameLengthSameValue(s[..|s| - 1], t[..|t| - 1]);
      hide DigitValue;
      SameDigit(s[|s| - 1], t[|t| - 1]);
    }
  }

  lemma {:induction false} StripZerosValue(s: string)
    requires IsNumeral(s)
    ensures IsNumeral(StripZeros(s)) && Value(StripZeros(s)) == Value(s)
    ensures s != [] ==> StripZeros(s) != []
    ensures |StripZeros(s)| > 1 ==> StripZeros(s)[0] != '0'
  {
    if |s| > 1 && s[0] == '0' {
      StripZerosValue(s[1..]);
      ValueOfConcat(s[..1], s[1..]);
      assert s == s[..1] + s[1..];
    }
  }

  /** Without leading zeros, the value determines the length. */
  lemma {:induction false} StrippedLowerBound(s: string)
    requires IsNumeral(s) && s != [] && s[0] != '0'
    ensures Value(s) >= Pow10(|s| - 1)
  {
    if |s| == 1 {
    } else {
      StrippedLowerBound(s[..|s| - 1]);
    }
  }

  lemma {:induction false} Pow10Grows(m: nat, n: nat)
    requires m <= n
    ensures Pow10(m) <= Pow10(n)
  {
    if m == n {
    } else {
      Pow10Grows(m, n - 1);
    }
  }

  lemma ShortestIsUnique(s: string, t: string)
    requires IsNumeral(s) && s != [] && (s[0] == '0' ==> |s| == 1)
    requires IsNumeral(t) && t != [] && (t[0] == '0' ==> |t| == 1)
    requires Value(s) == Value(t)
    ensures s == t
  {
    ShortestIsNoLonger(s, t);
    ShortestIsNoLonger(t, s);
    SameLengthSameValue(s, t);
  }

  lemma ShortestIsNoLonger(s: string, t: string)
    requires IsNumeral(s) && s != [] && (s[0] == '0' ==> |s| == 1)
    requires IsNumeral(t) && t != [] && Value(s) == Value(t)
    ensures |s| <= |t|
  {
    if |s| > |t| { Pow10Grows(|t|, |s| - 1); }
    if |s| > 1 { StrippedLowerBound(s); }
    ValueBound(t);
  }

  /** Printing a numeral's value strips its leading zeros and changes nothing else. */
  lemma PrintOfValue(s: string)
    requires IsNumeral(s) && s != []
    ensures Value(s) >= 0 && Print(Value(s)) == StripZeros(s)
  {
    ValueBound(s);
    StripZerosValue(s);
    ShortestIsUnique(Print(Value(s)), StripZeros(s));
  }

  /** Replacing one digit moves the value by the digit's difference times its place. */
  lemma {:induction false} ValueAfterSet(s: string, k: nat, c: char)
    requires k < |s|
    ensures Value(s[k := c]) == Value(s) + (DigitValue(c) - DigitValue(s[k])) * Pow10(|s| - 1 - k)
  {
    var t := s[k := c];
    if k == |s| - 1 {
      assert t[..|t| - 1] == s[..|s| - 1];
    } else {
      ValueAfterSet(s[..|s| - 1], k, c);
      assert t[..|t| - 1] == s[..|s| - 1][k := c];
      var x, p := DigitValue(c) - DigitValue(s[k]), Pow10(|s| - 2 - k);
      assert 10 * (x * p) == x * (10 * p);
    }
  }
}
