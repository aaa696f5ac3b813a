/**
  * Money in integer minor units: packages/shared/src/money.ts.
  *
  * Amounts are whole numbers; the source's -0 is the same amount as 0. Adding, printing and parsing
  * are exact in the source because a double holds every integer up to the safe bound and rounds
  * anything larger to something above the bound, which `Money` rejects. Multiplying is not exact by
  * itself, so it is modelled with the rounding of every intermediate result.
  */
module Money {
  import opened Decimals
  import opened Doubles
  import opened Prelude
  import Residues

  const MAX_SAFE := 9007199254740991

  datatype Currency = IRR | IRT | USD | EUR

  datatype MoneyError =
    | UnsafeAmount
    | CurrencyMismatch
    | EmptySum
    | NotAnInteger
    | ZeroDenominator
    | InvalidAmount
    | TooManyDecimals

  datatype Money = Money(amount: int, currency: Currency)

  function DecimalsOf(currency: Currency): nat {
    match currency
    case IRR | IRT => 0
    case USD | EUR => 2
  }

  predicate Safe(n: int) { -MAX_SAFE <= n <= MAX_SAFE }

  function MakeMoney(amount: int, currency: Currency): Result<Money, MoneyError> {
    if Safe(amount) then Ok(Money(amount, currency)) else Err(UnsafeAmount)
  }

  // ---------------------------------------------------------------------------------------------
  // Sums

  function Add(a: Money, b: Money): Result<Money, MoneyError> {
    if a.currency != b.currency then Err(CurrencyMismatch)
    else MakeMoney(a.amount + b.amount, a.currency)
  }

  /** The source's reduce: the first failure ends the sum. */
  function Reduce(first: Money, rest: seq<Money>): Result<Money, MoneyError>
    decreases |rest|
  {
    if rest == [] then Ok(first)
    else
      match Add(first, rest[0])
      case Ok(next) => Reduce(next, rest[1..])
      case Err(e) => Err(e)
  }

  function Sum(amounts: seq<Money>, currency: Option<Currency>): Result<Money, MoneyError> {
    if amounts == [] then
      (match currency
       case None => Err(EmptySum)
       case Some(c) => MakeMoney(0, c))
    else Reduce(amounts[0], amounts[1..])
  }

  /** The mathematical sum of the first `n` amounts. */
  function Prefix(amounts: seq<Money>, n: nat): int
    requires n <= |amounts|
  {
    if n == 0 then 0 else Prefix(amounts, n - 1) + amounts[n - 1].amount
  }

  ghost predicate OneCurrency(amounts: seq<Money>, from: nat, currency: Currency) {
    forall i :: from <= i < |amounts| ==> amounts[i].currency == currency
  }

  /** Every running total of more than `n` amounts is safe. */
  ghost predicate TotalsSafeAfter(amounts: seq<Money>, n: nat) {
    forall k :: n < k <= |amounts| ==> Safe(Prefix(amounts, k))
  }

  /** The reduce, caught after its first `k` amounts. */
  lemma {:induction false} ReduceFrom(all: seq<Money>, k: nat, currency: Currency)
    requires 1 <= k <= |all|
    ensures var r := Reduce(Money(Prefix(all, k), currency), all[k..]);
      && (r.Ok? <==> OneCurrency(all, k, currency) && TotalsSafeAfter(all, k))
      && (r.Ok? ==> r.value == Money(Prefix(all, |all|), currency))
    decreases |all| - k
  {
    if k == |all| {
    } else {
      ReduceFrom(all, k + 1, currency);
      assert all[k..][0] == all[k] && all[k..][1..] == all[k + 1..];
      assert OneCurrency(all, k, currency) <==> all[k].currency == currency && OneCurrency(all, k + 1, currency);
      assert TotalsSafeAfter(all, k) <==> Safe(Prefix(all, k + 1)) && TotalsSafeAfter(all, k + 1);
    }
  }

  /**
    * A sum succeeds exactly when it has a currency, uses no other and never leaves the safe range on
    * the way; it is then the mathematical sum.
    */
  lemma SumMeans(amounts: seq<Money>, currency: Option<Currency>)
    ensures Sum(amounts, currency).Ok? <==>
      if amounts == [] then currency.Some?
      else OneCurrency(amounts, 0, amounts[0].currency) && TotalsSafeAfter(amounts, 1)
    ensures amounts == [] && currency.Some? ==> Sum(amounts, currency) == Ok(Money(0, currency.value))
    ensures amounts != [] && Sum(amounts, currency).Ok? ==>
      Sum(amounts, currency).value == Money(Prefix(amounts, |amounts|), amounts[0].currency)
  {
    if amounts != [] {
      assert Prefix(amounts, 1) == Prefix(amounts, 0) + amounts[0].amount;
      assert Money(Prefix(amounts, 1), amounts[0].currency) == amounts[0];
      ReduceFrom(amounts, 1, amounts[0].currency);
      assert OneCurrency(amounts, 0, amounts[0].currency) <==> OneCurrency(amounts, 1, amounts[0].currency);
    }
  }

  /** How a reduce fails: at the first amount of another currency or whose running total is unsafe. */
  lemma {:induction false} ReduceFailsAt(all: seq<Money>, k: nat, currency: Currency) returns (n: nat)
    requires 1 <= k <= |all| && Reduce(Money(Prefix(all, k), currency), all[k..]).Err?
    ensures k <= n < |all|
    ensures forall i :: k <= i < n ==> all[i].currency == currency && Safe(Prefix(all, i + 1))
    ensures Reduce(Money(Prefix(all, k), currency), all[k..])
         == Err(if all[n].currency != currency then CurrencyMismatch else UnsafeAmount)
    ensures all[n].currency == currency ==> !Safe(Prefix(all, n + 1))
    decreases |all| - k
  {
    assert k < |all|;
    assert all[k..][0] == all[k] && all[k..][1..] == all[k + 1..];
    if all[k].currency == currency && Safe(Prefix(all, k + 1)) {
      n := ReduceFailsAt(all, k + 1, currency);
    } else {
      n := k;
    }
  }

  /** The order of the amounts decides whether a sum succeeds: a safe total is not enough. */
  lemma SumDependsOnOrder()
    ensures Sum([Money(MAX_SAFE, IRR), Money(1, IRR), Money(-1, IRR)], None) == Err(UnsafeAmount)
    ensures Sum([Money(MAX_SAFE, IRR), Money(-1, IRR), Money(1, IRR)], None) == Ok(Money(MAX_SAFE, IRR))
  {
    var up := [Money(MAX_SAFE, IRR), Money(1, IRR), Money(-1, IRR)];
    assert up[1..][0] == Money(1, IRR);
    var step, one := Money(MAX_SAFE - 1, IRR), [Money(1, IRR)];
    var down := [Money(MAX_SAFE, IRR), Money(-1, IRR), Money(1, IRR)];
    assert Add(down[0], down[1..][0]) == Ok(step) && down[1..][1..] == one;
    assert Add(step, one[0]) == Ok(Money(MAX_SAFE, IRR)) && one[1..] == [];
    assert Reduce(down[0], down[1..]) == Reduce(step, one);
    assert Reduce(up[0], up[1..]) == Err(UnsafeAmount);
  }

  // ---------------------------------------------------------------------------------------------
  // Printing and parsing

  /** The whole units in an amount of minor units. */
  function UnitPart(n: nat, decimals: nat): (q: nat)
    ensures q * Pow10(decimals) <= n < q * Pow10(decimals) + Pow10(decimals)
  {
    Residues.Divide(n, Pow10(decimals));
    n / Pow10(decimals)
  }

  /** What is left over, less than one unit. */
  function FractionPart(n: nat, decimals: nat): (r: nat)
    ensures n == UnitPart(n, decimals) * Pow10(decimals) + r && r < Pow10(decimals)
  {
    n % Pow10(decimals)
  }

  /**
    * Sign, unit and fraction; the fraction is absent when the currency has no decimals. The source
    * truncates a double quotient, which `RoundedQuotient` shows to be the integer quotient.
    */
  function ToMajorString(m: Money): Result<string, MoneyError> {
    if !Safe(m.amount) then Err(UnsafeAmount)
    else
      var decimals := DecimalsOf(m.currency);
      var sign := if m.amount < 0 then "-" else "";
      var magnitude := Abs(m.amount);
      if decimals == 0 then Ok(sign + Print(magnitude))
      else
        Ok(sign + Print(UnitPart(magnitude, decimals)) + "."
           + PadStart(Print(FractionPart(magnitude, decimals)), decimals))
  }

  /** A written amount: `int` and, after a point, `frac`. Without a point `frac` is empty. */
  datatype Written = Written(negative: bool, whole: string, frac: string)

  predicate WellWritten(w: Written) { w.whole != [] && IsNumeral(w.whole) && IsNumeral(w.frac) }

  function Body(w: Written): string {
    w.whole + (if w.frac == [] then "" else "." + w.frac)
  }

  function Text(w: Written): string {
    (if w.negative then "-" else "") + Body(w)
  }

  /** The length of the run of digits at the front. */
  function DigitRun(s: string): (n: nat)
    ensures n <= |s| && IsNumeral(s[..n]) && (n < |s| ==> !IsDigit(s[n]))
  {
    if s == [] || !IsDigit(s[0]) then 0
    else
      var n := DigitRun(s[1..]);
      assert forall i :: 0 < i < n + 1 ==> s[i] == s[1..][..n][i - 1];
      n + 1
  }

  /** Digits, and optionally a point with more digits. */
  function MatchBody(negative: bool, body: string): (r: Option<Written>)
    ensures r.Some? ==> WellWritten(r.value) && r.value.negative == negative && body == Body(r.value)
  {
    var n := DigitRun(body);
    if n == 0 then None
    else if n == |body| then Some(Written(negative, body, ""))
    else if body[n] == '.' && n + 1 < |body| && IsNumeral(body[n + 1..]) then
      Some(Written(negative, body[..n], body[n + 1..]))
    else None
  }

  /** The source's pattern: an optional minus in front of such a body, and nothing after it. */
  function Match(t: string): (r: Option<Written>)
    ensures r.Some? ==> WellWritten(r.value) && t == Text(r.value)
  {
    if t != [] && t[0] == '-' then MatchBody(true, t[1..]) else MatchBody(false, t)
  }

  predicate Kept(c: char) { c != ',' && !IsSpace(c) }

  /** Group separators and white space go, wherever they stand. */
  function Clean(input: string): string { Filter(Kept, input) }

  /** The amount a written number stands for, in minor units. */
  function MinorUnits(w: Written, decimals: nat): int {
    Value(w.whole + PadEnd(w.frac, decimals)) * (if w.negative then -1 else 1)
  }

  function ParseMajorString(input: string, currency: Currency): Result<Money, MoneyError> {
    match Match(Clean(input))
    case None => Err(InvalidAmount)
    case Some(w) =>
      if |w.frac| > DecimalsOf(currency) then Err(TooManyDecimals)
      else MakeMoney(MinorUnits(w, DecimalsOf(currency)), currency)
  }

  lemma {:induction false} DigitRunOfConcat(a: string, b: string)
    requires IsNumeral(a) && (b == [] || !IsDigit(b[0]))
    ensures DigitRun(a + b) == |a|
  {
    if a == [] {
      assert a + b == b;
    } else {
      DigitRunOfConcat(a[1..], b);
      assert (a + b)[1..] == a[1..] + b;
    }
  }

  lemma MatchBodyFinds(w: Written)
    requires WellWritten(w)
    ensures MatchBody(w.negative, Body(w)) == Some(w)
  {
    var body := Body(w);
    DigitRunOfConcat(w.whole, if w.frac == [] then "" else "." + w.frac);
    hide DigitRun;
    if w.frac == [] {
      assert body == w.whole;
    } else {
      assert body[..|w.whole|] == w.whole;
      assert body[|w.whole| + 1..] == w.frac;
    }
  }

  /** The pattern reads a text in at most one way, and finds that way. */
  lemma MatchFinds(w: Written)
    requires WellWritten(w)
    ensures Match(Text(w)) == Some(w)
  {
    MatchBodyFinds(w);
    hide MatchBody;
    assert IsDigit(w.whole[0]) && Body(w)[0] == w.whole[0];
    if w.negative { assert Text(w)[1..] == Body(w); } else { assert Text(w) == Body(w); }
  }

  /** A group separator or white space makes no difference to what is parsed, wherever it stands. */
  lemma ParseIgnoresSeparators(a: string, c: char, b: string, currency: Currency)
    requires c == ',' || IsSpace(c)
    ensures ParseMajorString(a + ([c] + b), currency) == ParseMajorString(a + b, currency)
  {
    FilterConcat(Kept, a, [c] + b);
    FilterConcat(Kept, [c], b);
    FilterConcat(Kept, a, b);
    assert Filter(Kept, [c]) == [];
    hide Filter, Match;
  }

  lemma SmallNumerals()
    ensures Print(1) == "1" && Print(5) == "5" && Print(12) == "12" && Print(34) == "34" && Print(100) == "100"
  {
    assert Print(3) == "3" && Print(10) == "10";
  }

  lemma Cents(n: nat, unit: nat, frac: nat)
    requires n == 100 * unit + frac && frac < 100
    ensures UnitPart(n, 2) == unit && FractionPart(n, 2) == frac
  {
    assert Pow10(2) == 100 by { assert Pow10(1) == 10; }
    hide Pow10;
  }

  /** Two decimals for dollars and euros, as in the documented example, and none for rials and tomans. */
  lemma PrintedExamples()
    ensures ToMajorString(Money(1234, USD)) == Ok("12.34")
    ensures ToMajorString(Money(-105, EUR)) == Ok("-1.05")
    ensures ToMajorString(Money(100, IRR)) == Ok("100") && ToMajorString(Money(100, IRT)) == Ok("100")
  {
    SmallNumerals();
    Cents(1234, 12, 34);
    Cents(105, 1, 5);
    assert PadStart("34", 2) == "34" && PadStart("5", 2) == "05" by { assert Zeros(1) == "0"; }
    hide Print, PadStart, UnitPart, FractionPart;
    assert "" + "12" + "." + "34" == "12.34";
    assert "-" + "1" + "." + "05" == "-1.05";
    assert "" + "100" == "100";
  }

  /** Nothing is lost in cleaning a text that has neither separators nor white space. */
  lemma {:induction false} CleanKeeps(s: string)
    requires forall i :: 0 <= i < |s| ==> Kept(s[i])
    ensures Clean(s) == s
  {
    if s == [] {
    } else {
      CleanKeeps(s[1..]);
    }
  }

  /** What the printer writes for a magnitude and sign. */
  function Canonical(negative: bool, magnitude: nat, decimals: nat): (w: Written)
    ensures WellWritten(w)
  {
    Written(negative, Print(UnitPart(magnitude, decimals)),
            if decimals == 0 then "" else PadStart(Print(FractionPart(magnitude, decimals)), decimals))
  }

  lemma NoDecimals(n: nat)
    ensures UnitPart(n, 0) == n
  {
    assert Pow10(0) == 1;
  }

  lemma JoinParts(sign: string, whole: string, frac: string)
    ensures sign + (whole + ("." + frac)) == ((sign + whole) + ".") + frac
  {
  }

  lemma PrintedText(m: Money)
    requires Safe(m.amount)
    ensures ToMajorString(m) == Ok(Text(Canonical(m.amount < 0, Abs(m.amount), DecimalsOf(m.currency))))
  {
    var w := Canonical(m.amount < 0, Abs(m.amount), DecimalsOf(m.currency));
    NoDecimals(Abs(m.amount));
    assert DecimalsOf(m.currency) > 0 ==> w.frac != [];
    hide Print, PadStart, UnitPart, FractionPart, Value, Pow10, IsNumeral;
    var sign := if m.amount < 0 then "-" else "";
    if DecimalsOf(m.currency) == 0 {
      assert Body(w) == w.whole;
    } else {
      JoinParts(sign, w.whole, w.frac);
    }
  }

  lemma TextIsClean(w: Written)
    requires WellWritten(w)
    ensures forall i :: 0 <= i < |Text(w)| ==> Kept(Text(w)[i])
  {
    forall i | 0 <= i < |Text(w)| ensures Kept(Text(w)[i]) {
      assert Text(w)[i] in Text(w);
      assert IsDigit(Text(w)[i]) || Text(w)[i] in "-.";
    }
  }

  /** A printed fraction has exactly as many digits as the currency has decimals. */
  lemma FractionLength(frac: nat, decimals: nat)
    requires decimals > 0 && frac < Pow10(decimals)
    ensures |PadStart(Print(frac), decimals)| == decimals
  {
    if |Print(frac)| > decimals { Pow10Grows(decimals, |Print(frac)| - 1); }
    if |Print(frac)| > 1 { StrippedLowerBound(Print(frac)); }
  }

  lemma CanonicalValue(negative: bool, magnitude: nat, decimals: nat)
    ensures |Canonical(negative, magnitude, decimals).frac| == decimals
    ensures MinorUnits(Canonical(negative, magnitude, decimals), decimals)
         == magnitude * (if negative then -1 else 1)
  {
    var unit, frac := UnitPart(magnitude, decimals), FractionPart(magnitude, decimals);
    var w := Canonical(negative, magnitude, decimals);
    if decimals > 0 {
      FractionLength(frac, decimals);
      PadStartValue(Print(frac), decimals);
    }
    hide Print, PadStart, UnitPart, FractionPart;
    assert Value(w.frac) == frac;
    ValueOfConcat(w.whole, w.frac);
  }

  /** Parsing what was printed gives the amount back, for every safe amount and every currency. */
  lemma ParseOfPrint(m: Money)
    requires Safe(m.amount)
    ensures ToMajorString(m).Ok?
    ensures ParseMajorString(ToMajorString(m).value, m.currency) == Ok(m)
  {
    var w := Canonical(m.amount < 0, Abs(m.amount), DecimalsOf(m.currency));
    PrintedText(m);
    TextIsClean(w);
    CleanKeeps(Text(w));
    MatchFinds(w);
    CanonicalValue(m.amount < 0, Abs(m.amount), DecimalsOf(m.currency));
  }

  /** `w` is a reading of the input, once separators and white space are gone. */
  predicate Reads(input: string, w: Written) { WellWritten(w) && Clean(input) == Text(w) }

  /** What a readable input parses to, and that nothing else parses. */
  lemma ParseMeans(input: string, currency: Currency)
    ensures forall w :: Reads(input, w) ==>
      ParseMajorString(input, currency) ==
        if |w.frac| > DecimalsOf(currency) then Err(TooManyDecimals)
        else MakeMoney(MinorUnits(w, DecimalsOf(currency)), currency)
    ensures ParseMajorString(input, currency) == Err(InvalidAmount) <==> forall w :: !Reads(input, w)
  {
    hide Match, Clean, Text, MinorUnits;
    forall w | Reads(input, w) ensures Match(Clean(input)) == Some(w) { MatchFinds(w); }
    assert Match(Clean(input)).Some? ==> Reads(input, Match(Clean(input)).value);
  }

  /** The canonical way to write `w`: no leading zeros, all decimals, no minus on zero. */
  function Canonized(w: Written, decimals: nat): Written {
    var frac := PadEnd(w.frac, decimals);
    Written(w.negative && MinorUnits(w, decimals) != 0, StripZeros(w.whole), frac)
  }

  lemma PadEndIsNumeral(s: string, n: nat)
    requires IsNumeral(s)
    ensures IsNumeral(PadEnd(s, n)) && (|s| <= n ==> |PadEnd(s, n)| == n)
  {
  }

  lemma SplitValue(whole: string, frac: string)
    requires IsNumeral(whole) && IsNumeral(frac)
    ensures Value(whole) >= 0 && Value(frac) >= 0 && Value(whole + frac) >= 0
    ensures UnitPart(Value(whole + frac), |frac|) == Value(whole)
    ensures FractionPart(Value(whole + frac), |frac|) == Value(frac)
  {
    ValueBound(whole);
    ValueBound(frac);
    ValueBound(whole + frac);
    ValueOfConcat(whole, frac);
    hide Value, Pow10;
    Residues.Unique(Value(whole + frac), Pow10(|frac|), Value(whole), Value(frac));
  }

  /** A fraction of full length is what the printer pads its value to. */
  lemma PaddedValue(frac: string, n: nat)
    requires IsNumeral(frac) && |frac| == n && n > 0
    ensures Value(frac) >= 0 && PadStart(Print(Value(frac)), n) == frac
  {
    ValueBound(frac);
    var v := Value(frac);
    ShortestIsNoLonger(Print(v), frac);
    PadStartValue(Print(v), n);
    SameLengthSameValue(PadStart(Print(v), n), frac);
  }

  /** The digits of a written amount, put together, print as its canonical form. */
  lemma CanonicalOfWritten(w: Written, decimals: nat)
    requires WellWritten(w) && |w.frac| <= decimals
    ensures Canonical(MinorUnits(w, decimals) < 0, Abs(MinorUnits(w, decimals)), decimals)
         == Canonized(w, decimals)
  {
    var frac := PadEnd(w.frac, decimals);
    PadEndIsNumeral(w.frac, decimals);
    SplitValue(w.whole, frac);
    PrintOfValue(w.whole);
    if decimals > 0 { PaddedValue(frac, decimals); }
    assert decimals == 0 ==> frac == "";
    hide Print, PadStart, PadEnd, UnitPart, FractionPart, Value, StripZeros;
    assert Abs(MinorUnits(w, decimals)) == Value(w.whole + frac);
  }

  /** Printing what was parsed gives the canonical form of what was written. */
  lemma PrintOfParse(input: string, currency: Currency, w: Written)
    requires Reads(input, w)
    requires ParseMajorString(input, currency).Ok?
    ensures ToMajorString(ParseMajorString(input, currency).value)
         == Ok(Text(Canonized(w, DecimalsOf(currency))))
  {
    MatchFinds(w);
    PrintedText(ParseMajorString(input, currency).value);
    CanonicalOfWritten(w, DecimalsOf(currency));
    hide Match, Canonical, Canonized, Text, MinorUnits, ToMajorString, Clean;
  }

  /** Two accepted texts mean the same amount exactly when their canonical forms agree. */
  lemma SameAmountSameText(s: string, t: string, currency: Currency, v: Written, w: Written)
    requires Reads(s, v) && ParseMajorString(s, currency).Ok?
    requires Reads(t, w) && ParseMajorString(t, currency).Ok?
    ensures ParseMajorString(s, currency) == ParseMajorString(t, currency) <==>
      Canonized(v, DecimalsOf(currency)) == Canonized(w, DecimalsOf(currency))
  {
    PrintOfParse(s, currency, v);
    PrintOfParse(t, currency, w);
    ParsedIsSafe(s, currency);
    ParsedIsSafe(t, currency);
    ParseOfPrint(ParseMajorString(s, currency).value);
    ParseOfPrint(ParseMajorString(t, currency).value);
    CanonizedIsWellWritten(v, DecimalsOf(currency));
    CanonizedIsWellWritten(w, DecimalsOf(currency));
    MatchFinds(Canonized(v, DecimalsOf(currency)));
    MatchFinds(Canonized(w, DecimalsOf(currency)));
    hide ParseMajorString, ToMajorString, Match, Canonized, Text;
  }

  lemma ParsedIsSafe(s: string, currency: Currency)
    requires ParseMajorString(s, currency).Ok?
    ensures Safe(ParseMajorString(s, currency).value.amount)
    ensures ParseMajorString(s, currency).value.currency == currency
  {
  }

  lemma CanonizedIsWellWritten(w: Written, decimals: nat)
    requires WellWritten(w)
    ensures WellWritten(Canonized(w, decimals))
  {
    StripZerosValue(w.whole);
    PadEndIsNumeral(w.frac, decimals);
  }

  // ---------------------------------------------------------------------------------------------
  // Multiplying by a fraction

  function Magnitude(x: real): real { if x < 0.0 then -x else x }

  /** The source's rounding division of the product `x`, every intermediate result rounded by `fl`. */
  function DivideRounded(x: int, d: int, fl: real -> real): int
    requires d != 0
  {
    var raw := fl(x as real);
    var sign := if raw < 0.0 then -1 else 1;
    var shifted := fl(Magnitude(raw) + (d / 2) as real);
    var quotient := fl(shifted / (d as real)).Floor;
    sign * quotient
  }

  function Multiply(a: Money, numerator: int, denominator: int, fl: real -> real): Result<Money, MoneyError> {
    if !Safe(numerator) || !Safe(denominator) then Err(NotAnInteger)
    else if denominator == 0 then Err(ZeroDenominator)
    else MakeMoney(DivideRounded(a.amount * numerator, denominator, fl), a.currency)
  }

  /** A basis point is a ten-thousandth. */
  function ApplyBasisPoints(a: Money, points: int, fl: real -> real): Result<Money, MoneyError> {
    if !Safe(points) then Err(NotAnInteger) else Multiply(a, points, 10000, fl)
  }

  /** Integer division rounded down, for a divisor of either sign. */
  function FloorDiv(x: int, d: int): int
    requires d != 0
  {
    if d > 0 then x / d else -x / -d
  }

  /** The same computation on integers. */
  function Scaled(x: int, d: int): int
    requires d != 0
  {
    (if x < 0 then -1 else 1) * FloorDiv(Abs(x) + d / 2, d)
  }

  /** What the source computes, rounding included: only the shifted magnitude can be inexact. */
  function Computed(x: int, d: int): int
    requires d != 0
  {
    (if x < 0 then -1 else 1) * FloorDiv(if d > 0 then RoundedInteger(Abs(x) + d / 2) else Abs(x) + d / 2, d)
  }

  lemma OppositeQuotient(x: real, d: real)
    requires d != 0.0
    ensures x / d == -x / -d
  {
  }

  lemma MagnitudeOfInteger(x: int)
    ensures Magnitude(x as real) == Abs(x) as real
  {
  }

  /** For a safe product the rounded computation gives exactly that. */
  lemma DivideIsComputed(x: int, d: int, fl: real -> real)
    requires Rounds(fl) && d != 0 && Safe(x) && Safe(d)
    ensures DivideRounded(x, d, fl) == Computed(x, d)
  {
    hide Rounds, RoundedInteger;
    var s := Abs(x) + d / 2;
    IntegerIsKept(fl, x);
    MagnitudeOfInteger(x);
    if d > 0 {
      RoundedBelowTwice(s);
      IntegerIsRounded(fl, s);
      RoundedQuotient(fl, RoundedInteger(s), d);
    } else {
      IntegerIsKept(fl, s);
      OppositeQuotient(s as real, d as real);
      RoundedQuotient(fl, -s, -d);
    }
  }

  /** `r` is the integer nearest to `x / d`, and of two equally near the one away from zero. */
  predicate RoundsTo(r: int, x: int, d: int) {
    && 2 * Abs(x - r * d) <= Abs(d)
    && (2 * Abs(x - r * d) == Abs(d) ==> Abs(r * d) > Abs(x))
  }

  lemma AbsoluteProduct(k: int, d: int)
    ensures Abs(k * d) == Abs(k) * Abs(d)
  {
    if k >= 0 && d >= 0 { assert k * d >= 0; }
    else if k >= 0 { assert k * -d >= 0 && k * -d == -(k * d); }
    else if d >= 0 { assert -k * d >= 0 && -k * d == -(k * d); }
    else { assert -k * -d >= 0 && -k * -d == k * d; }
  }

  lemma MultipleSize(k: int, d: int)
    ensures k != 0 ==> Abs(k * d) >= Abs(d)
    ensures Abs(k) >= 2 ==> Abs(k * d) >= 2 * Abs(d)
  {
    AbsoluteProduct(k, d);
    if k != 0 { AtLeastTimes(Abs(d), Abs(k), 1); }
    if Abs(k) >= 2 { AtLeastTimes(Abs(d), Abs(k), 2); }
  }

  /** There is only one such integer. */
  lemma RoundsToUnique(r: int, t: int, x: int, d: int)
    requires d != 0 && RoundsTo(r, x, d) && RoundsTo(t, x, d)
    ensures r == t
  {
    var u, v := r * d, t * d;
    assert (r - t) * d == u - v;
    MultipleSize(r - t, d);
    MultipleSize(r, d);
    MultipleSize(t, d);
    NoTwoNearest(u, v, x, Abs(d));
  }

  lemma NoTwoNearest(u: int, v: int, x: int, e: int)
    requires e > 0 && 2 * Abs(x - u) <= e && 2 * Abs(x - v) <= e
    requires 2 * Abs(x - u) == e ==> Abs(u) > Abs(x)
    requires 2 * Abs(x - v) == e ==> Abs(v) > Abs(x)
    requires (u == 0 || Abs(u) >= e) && (v == 0 || Abs(v) >= e)
    ensures Abs(u - v) < e
  {
  }

  lemma NearestFromAbove(m: nat, d: int, p: int, t: int)
    requires d > 0 && m + d / 2 == p + t && 0 <= t < d
    ensures 2 * Abs(m - p) <= d && (2 * Abs(m - p) == d ==> Abs(p) > m)
  {
  }

  /** With a positive denominator the result is always the nearest integer. */
  lemma ScaledPositive(x: int, d: int)
    requires d > 0
    ensures RoundsTo(Scaled(x, d), x, d)
  {
    var s, sign := Abs(x) + d / 2, if x < 0 then -1 else 1;
    var q := s / d;
    assert s == d * q + s % d;
    assert (sign * q) * d == sign * (d * q);
    NearestFromAbove(Abs(x), d, d * q, s % d);
  }

  lemma NearestFromBelow(m: nat, d: int, p: int, t: int)
    requires d > 0 && d - d / 2 - m == p + t && 0 <= t < d && (p <= 0 || p >= d)
    ensures 2 * Abs(m + p) <= d && (2 * Abs(m + p) == d ==> Abs(p) > m) <==> t != 0
  {
  }

  lemma MirroredRemainder(m: nat, e: int)
    requires e > 0
    ensures (e - e / 2 - m) % e == 0 <==> (m + e / 2) % e == 0
  {
    Residues.Unique(e, e, 1, 0);
    Residues.Difference(e, m + e / 2, e);
  }

  lemma SignedProduct(sign: int, q: int, e: int)
    ensures (sign * q) * -e == -sign * (e * q)
  {
  }

  /** With a negative one it misses by one when the shifted magnitude is a multiple of it. */
  lemma ScaledNegative(x: int, e: int)
    requires e > 0
    ensures RoundsTo(Scaled(x, -e), x, -e) <==> (Abs(x) + e / 2) % e != 0
  {
    var sign, s := if x < 0 then -1 else 1, e - e / 2 - Abs(x);
    assert -(Abs(x) + -e / 2) == s;
    MirroredRemainder(Abs(x), e);
    MultipleOf(s, e);
    SignedProduct(sign, s / e, e);
    NearestFromBelow(Abs(x), e, e * (s / e), s % e);
  }

  lemma MultipleOf(s: int, e: int)
    requires e > 0
    ensures s == e * (s / e) + s % e && (e * (s / e) <= 0 || e * (s / e) >= e)
  {
    var q := s / e;
    if q >= 1 {
      AtLeastTimes(e, q, 1);
    } else {
      AtLeastTimes(-q, e, 1);
      assert e * -q == -(e * q);
    }
  }

  /** When the integer computation rounds to nearest: an exact condition on the arguments. */
  lemma ScaledIsNearestIff(x: int, d: int)
    requires d != 0
    ensures RoundsTo(Scaled(x, d), x, d) <==> d > 0 || (Abs(x) + Abs(d) / 2) % Abs(d) != 0
  {
    if d > 0 { ScaledPositive(x, d); } else { ScaledNegative(x, -d); }
  }

  /**
    * The shifted magnitude `s` is odd, too large for a double, and its rounding crosses a multiple of `d`.
    */
  predicate CarriedOver(s: nat, d: int)
    requires d > 0
  {
    s > TWO_53 && ((s % 4 == 3 && (s + 1) % d == 0) || (s % 4 == 1 && s % d == 0))
  }

  lemma NextQuotient(s: nat, d: int)
    requires d > 0
    ensures (s + 1) / d == s / d <==> (s + 1) % d != 0
  {
    var q, r := s / d, s % d;
    assert s == d * q + r;
    if r + 1 < d {
      Residues.Unique(s + 1, d, q, r + 1);
    } else {
      assert d * (q + 1) == d * q + d;
      Residues.Unique(s + 1, d, q + 1, 0);
    }
  }

  lemma RoundingKeepsQuotientIff(s: nat, d: int)
    requires d > 0 && s < 2 * TWO_53
    ensures RoundedInteger(s) / d == s / d <==> !CarriedOver(s, d)
  {
    RoundedBelowTwice(s);
    hide RoundedInteger;
    NextQuotient(s, d);
    if s > 0 { NextQuotient(s - 1, d); }
  }

  lemma SignedDiffer(x: int, a: int, b: int)
    ensures (if x < 0 then -1 else 1) * a == (if x < 0 then -1 else 1) * b <==> a == b
  {
  }

  /**
    * When the computed result is the nearest integer, ties away from zero: an exact condition on the
    * arguments, for either sign of the denominator.
    */
  lemma ComputedIsNearestIff(x: int, d: int)
    requires d != 0 && Safe(x) && Safe(d)
    ensures RoundsTo(Computed(x, d), x, d) <==>
      if d > 0 then !CarriedOver(Abs(x) + d / 2, d) else (Abs(x) + -d / 2) % -d != 0
  {
    ScaledIsNearestIff(x, d);
    if d > 0 {
      var s: nat := Abs(x) + d / 2;
      RoundingKeepsQuotientIff(s, d);
      SignedDiffer(x, RoundedInteger(s) / d, s / d);
      assert Computed(x, d) == Scaled(x, d) <==> !CarriedOver(s, d);
      hide RoundsTo, CarriedOver, Computed, Scaled;
      if RoundsTo(Computed(x, d), x, d) { RoundsToUnique(Computed(x, d), Scaled(x, d), x, d); }
    }
  }

  lemma ComputedIsSafe(x: int, d: int)
    requires d != 0 && Safe(x) && Safe(d)
    ensures Safe(Computed(x, d))
  {
    var s := Abs(x) + d / 2;
    hide RoundedInteger;
    if d > 0 {
      RoundedBelowTwice(s);
      QuotientMagnitude(RoundedInteger(s), d);
      if d > 1 { HalfAtMost(RoundedInteger(s), d); }
    } else {
      QuotientMagnitude(-s, -d);
    }
  }

  // --- products of any size

  /** The shifted magnitude as the source holds it: the product rounded, half the denominator added, rounded. */
  function Shifted(x: int, d: int): int { RoundedWhole(RoundedInteger(Abs(x)) + d / 2) }

  /** The magnitude of the integer nearest to `x / d`. */
  function NearestMagnitude(x: int, d: int): nat
    requires d != 0
  {
    (Abs(x) + Abs(d) / 2) / Abs(d)
  }

  /** The rounded quotient is an amount at all. */
  predicate Fits(x: int, d: int)
    requires d != 0
  {
    if d > 0 then !Reaches(Shifted(x, d), d, TWO_53) else Stays(Shifted(x, d), -d, MAX_SAFE)
  }

  /** The nearest integer is an amount, and the roundings leave the quotient between it and the next. */
  predicate InPlace(x: int, d: int)
    requires d != 0
  {
    var n, s := NearestMagnitude(x, d), Shifted(x, d);
    n <= MAX_SAFE
    && if d > 0 then Reaches(s, d, n) && !Reaches(s, d, n + 1) else Stays(s, -d, n) && !Stays(s, -d, n - 1)
  }

  function NearestInteger(x: int, d: int): int
    requires d != 0
  {
    var n: int := NearestMagnitude(x, d);
    if (x < 0) == (d < 0) then n else -n
  }

  lemma RoundsToOpposite(r: int, x: int, d: int)
    ensures RoundsTo(r, x, d) <==> RoundsTo(-r, x, -d)
  {
    assert -r * -d == r * d;
  }

  lemma NearestRounds(x: int, d: int)
    requires d != 0
    ensures RoundsTo(NearestInteger(x, d), x, d)
  {
    ScaledPositive(x, Abs(d));
    assert Scaled(x, Abs(d)) == if x < 0 then -(NearestMagnitude(x, d) as int) else NearestMagnitude(x, d);
    hide RoundsTo, NearestMagnitude, Scaled;
    RoundsToOpposite(NearestInteger(x, d), x, d);
  }

  /** The nearest integer, ties away from zero, in closed form. */
  lemma NearestIs(r: int, x: int, d: int)
    requires d != 0
    ensures RoundsTo(r, x, d) <==> r == NearestInteger(x, d)
  {
    NearestRounds(x, d);
    hide RoundsTo, NearestInteger;
    if RoundsTo(r, x, d) { RoundsToUnique(r, NearestInteger(x, d), x, d); }
  }

  lemma ShiftedBounds(x: int, d: int)
    requires Abs(x) <= MAX_SAFE * MAX_SAFE && Safe(d) && d != 0
    ensures -TWO_53 < Shifted(x, d) < TWO_107 && Abs(RoundedInteger(Abs(x)) + d / 2) < TWO_107
    ensures d > 0 ==> Shifted(x, d) >= 0
    ensures Shifted(x, d) <= 0 ==> -Shifted(x, d) <= Abs(d)
  {
    var r: int := RoundedInteger(Abs(x));
    RoundedNear(Abs(x));
    var s := r + d / 2;
    RoundedNear(Abs(s));
    if s < 0 { RoundedBelowTwice(Abs(s)); }
    hide RoundedInteger;
  }

  /** What the source divides, and by what sign it multiplies. */
  lemma DivideShifted(x: int, d: int, fl: real -> real)
    requires Rounds(fl) && d != 0 && Safe(d) && Abs(x) <= MAX_SAFE * MAX_SAFE
    ensures
      var q := fl(Shifted(x, d) as real / d as real).Floor;
      DivideRounded(x, d, fl) == if x < 0 then -q else q
  {
    hide Rounds, RoundedInteger;
    ShiftedBounds(x, d);
    IntegerIsRounded(fl, x);
    var r: int := RoundedInteger(Abs(x));
    RoundedPositive(Abs(x));
    MagnitudeOfInteger(RoundedWhole(x));
    assert Magnitude(fl(x as real)) == r as real;
    assert r as real + (d / 2) as real == (r + d / 2) as real;
    IntegerIsRounded(fl, r + d / 2);
  }

  lemma RoundedPositive(n: nat)
    ensures RoundedInteger(n) > 0 <==> n > 0
  {
    if n < TWO_53 { RoundedBelowTwice(n); } else {
      var m, r, u, k := SignificandOf(n);
      hide RoundedInteger;
      AtLeastTimes(u, m, TWO_52);
    }
  }

  lemma FactorAtMostOne(q: int, d: int)
    requires d >= 1 && d * q <= d
    ensures q <= 1
  {
    assert d * (q - 1) == d * q - d;
  }

  lemma QuotientAtMostOne(t: nat, d: int)
    requires 1 <= d && t <= d
    ensures 0 <= t / d <= 1
  {
    Residues.Divide(t, d);
    FactorAtMostOne(t / d, d);
  }

  lemma AtMostOne(fl: real -> real, s: int, d: int)
    requires Rounds(fl) && -TWO_53 < s < TWO_107 && 1 <= d <= TWO_53 && (s <= 0 ==> -s <= d)
    ensures fl(s as real / (-d) as real).Floor <= 1
  {
    hide Rounds, PartsAbove;
    if s > 0 {
      WholePartStays(fl, s, d, -1);
    } else {
      var t := -s;
      hide Stays;
      QuotientAtMostOne(t, d);
      OppositeDivisor(t as real, d as real);
      assert s as real == -(t as real) && (-d) as real == -(d as real);
      RoundedQuotient(fl, t, d);
    }
  }

  /** `q` is the whole part of the source's quotient: what is known of it in integers. */
  lemma QuotientDecides(q: int, x: int, d: int, fl: real -> real)
    requires Rounds(fl) && d != 0 && Safe(d) && Abs(x) <= MAX_SAFE * MAX_SAFE
    requires q == fl(Shifted(x, d) as real / d as real).Floor
    ensures Safe(q) <==> Fits(x, d)
    ensures q == (if d > 0 then NearestMagnitude(x, d) else 0 - NearestMagnitude(x, d)) && Safe(q) <==> InPlace(x, d)
  {
    ShiftedBounds(x, d);
    var s, n := Shifted(x, d), NearestMagnitude(x, d);
    hide Rounds, Reaches, Stays, Shifted, NearestMagnitude;
    if d > 0 {
      WholePartReaches(fl, s, d, 0);
      WholePartReaches(fl, s, d, TWO_53);
      assert Reaches(s, d, 0) by { ReachesZero(s, d); }
      if n <= MAX_SAFE {
        WholePartReaches(fl, s, d, n);
        WholePartReaches(fl, s, d, n + 1);
      }
    } else {
      AtMostOne(fl, s, -d);
      WholePartStays(fl, s, -d, MAX_SAFE);
      if n <= MAX_SAFE {
        WholePartStays(fl, s, -d, n);
        WholePartStays(fl, s, -d, n - 1);
      }
    }
  }

  lemma ReachesZero(s: nat, d: int)
    requires d > 0
    ensures Reaches(s, d, 0)
  {
  }

  /** Which divisions give an amount, and which of them the nearest integer: exactly, for every product. */
  lemma DivideIsNearestIff(x: int, d: int, fl: real -> real)
    requires Rounds(fl) && d != 0 && Safe(d) && Abs(x) <= MAX_SAFE * MAX_SAFE
    ensures Safe(DivideRounded(x, d, fl)) <==> Fits(x, d)
    ensures Safe(DivideRounded(x, d, fl)) && RoundsTo(DivideRounded(x, d, fl), x, d) <==> InPlace(x, d)
  {
    var r, q := DivideRounded(x, d, fl), fl(Shifted(x, d) as real / d as real).Floor;
    DivideShifted(x, d, fl);
    QuotientDecides(q, x, d, fl);
    NearestIs(r, x, d);
    hide Rounds, DivideRounded, RoundsTo, Fits, InPlace, NearestMagnitude;
  }

  lemma ProductOfBounded(p: nat, q: nat, bound: nat)
    requires p <= bound && q <= bound
    ensures p * q <= bound * bound
  {
    AtLeastTimes(p, bound, q);
    AtLeastTimes(bound, bound, p);
  }

  lemma ProductBound(a: int, b: int)
    requires Safe(a) && Safe(b)
    ensures Abs(a * b) <= MAX_SAFE * MAX_SAFE
  {
    AbsoluteProduct(a, b);
    assert Abs(a) <= MAX_SAFE && Abs(b) <= MAX_SAFE;
    hide Abs;
    ProductOfBounded(Abs(a), Abs(b), MAX_SAFE);
  }

  /**
    * `multiply`: which calls fail and how, and exactly when the result is the product's nearest integer, ties
    * away from zero. For a safe product it never fails, and the condition is a remainder.
    */
  lemma MultiplyRounds(a: Money, numerator: int, denominator: int, fl: real -> real)
    requires Rounds(fl) && Safe(a.amount)
    ensures
      var r := Multiply(a, numerator, denominator, fl);
      var x := a.amount * numerator;
      if !Safe(numerator) || !Safe(denominator) then r == Err(NotAnInteger)
      else if denominator == 0 then r == Err(ZeroDenominator)
      else
        && (if Fits(x, denominator) then r.Ok? && r.value.currency == a.currency else r == Err(UnsafeAmount))
        && (r.Ok? && RoundsTo(r.value.amount, x, denominator) <==> InPlace(x, denominator))
        && (Safe(x) ==> Fits(x, denominator) && (InPlace(x, denominator) <==> SafeInPlace(x, denominator)))
  {
    if Safe(numerator) && Safe(denominator) && denominator != 0 {
      var x := a.amount * numerator;
      ProductBound(a.amount, numerator);
      DivideIsNearestIff(x, denominator, fl);
      if Safe(x) { SafeProduct(x, denominator, fl); }
      hide Rounds, RoundsTo, Fits, InPlace, SafeInPlace, DivideRounded;
    }
  }

  /** For a safe product: the shifted magnitude is not carried over, or is no multiple of a negative denominator. */
  predicate SafeInPlace(x: int, d: int)
    requires d != 0
  {
    if d > 0 then !CarriedOver(Abs(x) + d / 2, d) else (Abs(x) + -d / 2) % -d != 0
  }

  lemma SafeProduct(x: int, d: int, fl: real -> real)
    requires Rounds(fl) && d != 0 && Safe(x) && Safe(d)
    ensures Fits(x, d) && (InPlace(x, d) <==> SafeInPlace(x, d))
  {
    hide Rounds, RoundsTo, Fits, InPlace, DivideRounded, CarriedOver, Computed;
    ProductBound(x, 1);
    DivideIsNearestIff(x, d, fl);
    DivideIsComputed(x, d, fl);
    ComputedIsNearestIff(x, d);
    ComputedIsSafe(x, d);
  }

  /**
    * A safe product, a positive denominator, and still a miss: 9007199254740989 / 12 is shifted to
    * 2^53 + 3, rounded to 2^53 + 4, and carried over to the next integer.
    */
  lemma PositiveDenominatorCanMiss(fl: real -> real)
    requires Rounds(fl)
    ensures Multiply(Money(9007199254740989, IRR), 1, 12, fl) == Ok(Money(750599937895083, IRR))
    ensures RoundsTo(750599937895082, 9007199254740989, 12) && !RoundsTo(750599937895083, 9007199254740989, 12)
  {
    DivideIsComputed(9007199254740989, 12, fl);
    RoundedBelowTwice(9007199254740995);
    hide Rounds, DivideRounded, RoundedInteger;
  }

  /** Minus one is always off by one, whatever the product, and minus a half is rounded towards zero. */
  lemma NegativeDenominatorMisses(a: Money, numerator: int, fl: real -> real)
    requires Rounds(fl) && Safe(a.amount) && Safe(numerator)
    ensures
      var r := Multiply(a, numerator, -1, fl);
      r.Err? || !RoundsTo(r.value.amount, a.amount * numerator, -1)
    ensures Multiply(Money(5, a.currency), 1, -1, fl) == Ok(Money(-4, a.currency))
    ensures Multiply(Money(1, a.currency), 1, -2, fl) == Ok(Money(0, a.currency)) && RoundsTo(-1, 1, -2)
  {
    MultiplyRounds(a, numerator, -1, fl);
    MinusOneIsOut(a.amount * numerator);
    DivideIsComputed(5, -1, fl);
    DivideIsComputed(1, -2, fl);
    hide Rounds, InPlace, Fits, DivideRounded, SafeInPlace;
  }

  lemma MinusOneIsOut(x: int)
    ensures !InPlace(x, -1)
  {
    var n, s := NearestMagnitude(x, -1), Shifted(x, -1);
    if n <= MAX_SAFE {
      assert n == Abs(x);
      RoundedBelowTwice(n);
      if n > 0 { RoundedBelowTwice(n - 1); } else { RoundedBelowTwice(1); }
      hide RoundedInteger;
      assert s == n - 1;
    }
  }

  /** Basis points of a safe product are always the nearest integer; of a larger one exactly when it stays in
      place. */
  lemma BasisPointsRound(a: Money, points: int, fl: real -> real)
    requires Rounds(fl) && Safe(a.amount)
    ensures
      var r := ApplyBasisPoints(a, points, fl);
      var x := a.amount * points;
      if !Safe(points) then r == Err(NotAnInteger)
      else
        && (if Fits(x, 10000) then r.Ok? && r.value.currency == a.currency else r == Err(UnsafeAmount))
        && (r.Ok? && RoundsTo(r.value.amount, x, 10000) <==> InPlace(x, 10000))
        && (Safe(x) ==> Fits(x, 10000) && InPlace(x, 10000))
  {
    hide Rounds, RoundsTo, Multiply, CarriedOver, Fits, InPlace;
    MultiplyRounds(a, points, 10000, fl);
    if Safe(points) && Safe(a.amount * points) { NeverCarriedOver(Abs(a.amount * points) + 5000); }
  }

  lemma NeverCarriedOver(s: nat)
    requires s <= MAX_SAFE + 5000
    ensures !CarriedOver(s, 10000)
  {
  }

  lemma ExampleShifted()
    ensures Shifted(90071992545409920000, 10000) == 90071992545409925120
  {
    var x, s := 90071992545409920000, 90071992545409925120;
    assert Pow2(14) == 16384;
    ExponentIs(x, 14);
    ExponentIs(s + 5000, 14);
    hide Exponent, Pow2;
    assert RoundedInteger(x) == s;
    assert RoundedInteger(s + 5000) == s;
  }

  lemma ExampleReaches()
    ensures Reaches(90071992545409925120, 10000, 9007199254540993)
    ensures !Reaches(90071992545409925120, 10000, 9007199254540994)
  {
    assert PartsBelow(9007199254540993) == 1 && PartsBelow(9007199254540994) == 1;
    hide PartsBelow;
  }

  /** All of an amount near the bound, 10000 basis points, can be one more than the amount. */
  lemma BasisPointsCanMiss(fl: real -> real)
    requires Rounds(fl)
    ensures ApplyBasisPoints(Money(9007199254540992, IRR), 10000, fl) == Ok(Money(9007199254540993, IRR))
  {
    var x, s := 90071992545409920000, 90071992545409925120;
    ExampleShifted();
    ExampleReaches();
    hide Rounds, Shifted, Reaches;
    DivideShifted(x, 10000, fl);
    WholePartReaches(fl, s, 10000, 9007199254540993);
    WholePartReaches(fl, s, 10000, 9007199254540994);
    hide DivideRounded;
    assert DivideRounded(x, 10000, fl) == 9007199254540993;
  }
}
