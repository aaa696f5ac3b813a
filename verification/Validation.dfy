/**
  * Check-digit validators of packages/shared/src/validation.ts.
  *
  * Each validator cleans its input, tests its shape and runs a loop over the digits. The loops are
  * methods proved against arithmetic definitions; the error-detection laws are then proved about
  * those definitions.
  */
module Validation {
  import opened Decimals
  import opened Prelude
  import Residues

  // ---------------------------------------------------------------------------------------------
  // Cleaning

  /** A Persian or Arabic-Indic digit becomes the ASCII digit; any other character stays. */
  function NormalizeDigit(c: char): char {
    if '\U{06F0}' <= c <= '\U{06F9}' then DigitChar(c as int - 0x06F0)
    else if '\U{0660}' <= c <= '\U{0669}' then DigitChar(c as int - 0x0660)
    else c
  }

  function NormalizeDigits(input: string): (r: string)
    ensures |r| == |input|
    ensures forall i :: 0 <= i < |r| ==> r[i] == NormalizeDigit(input[i])
  {
    if input == [] then [] else [NormalizeDigit(input[0])] + NormalizeDigits(input[1..])
  }

  /** Everything that is not a digit is dropped, as the card and national-id validators do. */
  function DigitsOf(input: string): (r: string)
    ensures IsNumeral(r)
  {
    var kept := Filter(IsDigit, NormalizeDigits(input));
    assert forall i :: 0 <= i < |kept| ==> kept[i] in kept;
    kept
  }

  predicate ShebaKeeps(c: char) { !IsSpace(c) && c != '-' }

  /**
    * Upper-casing, for the characters that can take part in a well-formed SHEBA. The dotless i is
    * the only character beyond ASCII whose upper case is I or R.
    */
  function UpperChar(c: char): char {
    if 'a' <= c <= 'z' then (c as int - 32) as char
    else if c == '\U{0131}' then 'I'
    else c
  }

  function Upper(s: string): string {
    if s == [] then [] else [UpperChar(s[0])] + Upper(s[1..])
  }

  function ShebaText(input: string): string {
    Upper(Filter(ShebaKeeps, NormalizeDigits(input)))
  }

  /** `c` is the digit `d` typed on a Latin, a Persian or an Arabic keyboard. */
  predicate Types(c: char, d: char) {
    IsDigit(d) && (c == d || c as int == DigitValue(d) + 0x06F0 || c as int == DigitValue(d) + 0x0660)
  }

  /** `input` spells the digits `s` in any mix of the three scripts, with any separators between. */
  predicate Spells(input: string, s: string) {
    if input == [] then s == []
    else
      (s != [] && Types(input[0], s[0]) && Spells(input[1..], s[1..]))
      || (!IsDigit(NormalizeDigit(input[0])) && Spells(input[1..], s))
  }

  lemma DigitsOfStep(input: string)
    requires input != []
    ensures DigitsOf(input)
      == (var c := NormalizeDigit(input[0]); if IsDigit(c) then [c] else []) + DigitsOf(input[1..])
  {
    assert NormalizeDigits(input)[1..] == NormalizeDigits(input[1..]);
  }

  lemma TypesMeans(c: char, d: char)
    ensures Types(c, d) <==> IsDigit(d) && NormalizeDigit(c) == d
  {
  }

  /** Script and separators are irrelevant: the digits seen are exactly the digits spelled. */
  lemma {:induction false} DigitsOfIsWhatIsSpelled(input: string, s: string)
    ensures DigitsOf(input) == s <==> Spells(input, s)
  {
    if input == [] {
    } else {
      DigitsOfStep(input);
      hide DigitsOf, NormalizeDigit, Types;
      DigitsOfIsWhatIsSpelled(input[1..], s);
      FirstAndRest(NormalizeDigit(input[0]), DigitsOf(input[1..]), s);
      assert "" + DigitsOf(input[1..]) == DigitsOf(input[1..]);
      if s != [] {
        TypesMeans(input[0], s[0]);
        DigitsOfIsWhatIsSpelled(input[1..], s[1..]);
      }
    }
  }

  lemma FirstAndRest(c: char, rest: string, s: string)
    ensures [c] + rest == s <==> s != [] && s[0] == c && s[1..] == rest
  {
    assert s != [] ==> s == [s[0]] + s[1..];
  }

  // ---------------------------------------------------------------------------------------------
  // SHEBA (IBAN of Iran): ISO 13616-1, ISO/IEC 7064 MOD 97-10

  predicate ShebaShape(v: string) {
    |v| == 26 && v[0] == 'I' && v[1] == 'R' && IsNumeral(v[2..])
  }

  function Rearranged(v: string): string
    requires |v| >= 4
  {
    v[4..] + v[..4]
  }

  predicate IsLetter(c: char) { 'A' <= c <= 'Z' }

  /** A letter's two-digit code, A = 10 to Z = 35; any other character stands for itself. */
  function Code(c: char): string {
    if IsLetter(c) then Print(c as int - 55) else [c]
  }

  function Expand(s: string): string {
    if s == [] then [] else Code(s[0]) + Expand(s[1..])
  }

  /** The number the standard divides by 97. */
  function ShebaNumber(v: string): int
    requires |v| >= 4
  {
    Value(Expand(Rearranged(v)))
  }

  predicate ShebaHolds(v: string) { ShebaShape(v) && ShebaNumber(v) % 97 == 1 }

  lemma ShebaTextStep(input: string)
    requires input != []
    ensures ShebaText(input)
      == (var c := NormalizeDigit(input[0]); if ShebaKeeps(c) then [UpperChar(c)] else []) + ShebaText(input[1..])
  {
    assert NormalizeDigits(input)[1..] == NormalizeDigits(input[1..]);
  }

  lemma ShebaDropsFirst(c: char, b: string)
    requires IsSpace(c) || c == '-'
    ensures ShebaText([c] + b) == ShebaText(b)
  {
    ShebaTextStep([c] + b);
    assert NormalizeDigit(c) == c && !ShebaKeeps(c);
    hide ShebaText;
    assert ([c] + b)[1..] == b;
  }

  /** A white space character or hyphen makes no difference, wherever it stands. */
  lemma {:induction false} ShebaIgnoresSeparators(a: string, c: char, b: string)
    requires IsSpace(c) || c == '-'
    ensures ShebaText(a + ([c] + b)) == ShebaText(a + b)
  {
    hide ShebaText, ShebaKeeps, NormalizeDigit, UpperChar, IsSpace;
    if a == [] {
      assert a + ([c] + b) == [c] + b && a + b == b;
      ShebaDropsFirst(c, b);
    } else {
      ShebaTextStep(a + ([c] + b));
      ShebaTextStep(a + b);
      ShebaIgnoresSeparators(a[1..], c, b);
      assert (a + ([c] + b))[1..] == a[1..] + ([c] + b) && (a + b)[1..] == a[1..] + b;
    }
  }

  /** Without separators, each character counts as itself in upper case with an ASCII digit. */
  lemma {:induction false} ShebaTextOfPlain(v: string)
    requires forall i :: 0 <= i < |v| ==> ShebaKeeps(NormalizeDigit(v[i]))
    ensures |ShebaText(v)| == |v|
    ensures forall i :: 0 <= i < |v| ==> ShebaText(v)[i] == UpperChar(NormalizeDigit(v[i]))
  {
    if v == [] {
    } else {
      ShebaTextStep(v);
      ShebaTextOfPlain(v[1..]);
    }
  }

  function Small(c: char): char
    requires 'A' <= c <= 'Z'
  {
    (c as int + 32) as char
  }

  lemma CaseOfLetter(c: char)
    requires 'A' <= c <= 'Z'
    ensures NormalizeDigit(c) == c && ShebaKeeps(c) && UpperChar(c) == c
    ensures NormalizeDigit(Small(c)) == Small(c) && ShebaKeeps(Small(c)) && UpperChar(Small(c)) == c
    ensures NormalizeDigit('\U{0131}') == '\U{0131}' && ShebaKeeps('\U{0131}') && UpperChar('\U{0131}') == 'I'
  {
  }

  /** What one character contributes. */
  function ShebaPart(c: char): string {
    var d := NormalizeDigit(c);
    if ShebaKeeps(d) then [UpperChar(d)] else []
  }

  lemma ShebaTextFirst(c: char, b: string)
    ensures ShebaText([c] + b) == ShebaPart(c) + ShebaText(b)
  {
    ShebaTextStep([c] + b);
    hide ShebaText, NormalizeDigit, ShebaKeeps, UpperChar;
    assert ([c] + b)[1..] == b;
  }

  /** Nor does the case of a letter, or writing the I without its dot. */
  lemma {:induction false} ShebaIgnoresCase(a: string, c: char, b: string)
    requires 'A' <= c <= 'Z'
    ensures ShebaText(a + ([Small(c)] + b)) == ShebaText(a + ([c] + b))
    ensures c == 'I' ==> ShebaText(a + (['\U{0131}'] + b)) == ShebaText(a + ([c] + b))
  {
    hide ShebaText, ShebaKeeps, NormalizeDigit, UpperChar, IsSpace;
    if a == [] {
      CaseOfLetter(c);
      ShebaTextFirst(c, b);
      ShebaTextFirst(Small(c), b);
      ShebaTextFirst('\U{0131}', b);
      assert a + ([Small(c)] + b) == [Small(c)] + b && a + ([c] + b) == [c] + b;
      assert a + (['\U{0131}'] + b) == ['\U{0131}'] + b;
    } else {
      ShebaIgnoresCase(a[1..], c, b);
      SameStep(a, [Small(c)] + b, [c] + b);
      SameStep(a, ['\U{0131}'] + b, [c] + b);
    }
  }

  lemma SameStep(a: string, x: string, y: string)
    requires a != []
    ensures ShebaText(a[1..] + x) == ShebaText(a[1..] + y) ==> ShebaText(a + x) == ShebaText(a + y)
  {
    hide ShebaText, ShebaPart;
    ShebaTextFirst(a[0], a[1..] + x);
    ShebaTextFirst(a[0], a[1..] + y);
    assert [a[0]] + (a[1..] + x) == a + x && [a[0]] + (a[1..] + y) == a + y;
  }

  lemma DigitStepMod(x: int, d: int)
    ensures (10 * x + d) % 97 == (10 * (x % 97) + d) % 97
  {
    assert 10 * x + d == 97 * (10 * (x / 97)) + (10 * (x % 97) + d);
    Residues.Reduce(97 * (10 * (x / 97)), 10 * (x % 97) + d, 97);
    Residues.Multiple(10 * (x / 97), 97);
  }

  method IsValidSheba(input: string) returns (ok: bool)
    ensures ok <==> ShebaHolds(ShebaText(input))
  {
    var value := ShebaText(input);
    if !ShebaShape(value) { return false; }
    var expanded := Expand(Rearranged(value));
    var remainder := 0;
    for i := 0 to |expanded|
      invariant remainder == Value(expanded[..i]) % 97
    {
      assert expanded[..i + 1][..i] == expanded[..i];
      DigitStepMod(Value(expanded[..i]), DigitValue(expanded[i]));
      remainder := (remainder * 10 + DigitValue(expanded[i])) % 97;
    }
    assert expanded[..|expanded|] == expanded;
    return remainder == 1;
  }

  lemma ConcatAssociates(a: string, b: string, c: string)
    ensures a + (b + c) == (a + b) + c
  {
  }

  lemma {:induction false} ExpandConcat(a: string, b: string)
    ensures Expand(a + b) == Expand(a) + Expand(b)
  {
    hide Code;
    if a == [] {
      assert a + b == b;
    } else {
      ExpandConcat(a[1..], b);
      assert (a + b)[1..] == a[1..] + b;
      ConcatAssociates(Code(a[0]), Expand(a[1..]), Expand(b));
    }
  }

  lemma {:induction false} ExpandKeepsDigits(s: string)
    requires IsNumeral(s)
    ensures Expand(s) == s
  {
    if s == [] {
    } else {
      ExpandKeepsDigits(s[1..]);
    }
  }

  lemma CountryCode()
    ensures Expand("IR") == "1827"
  {
    assert Print(18) == "18" by { assert Print(1) == "1"; }
    assert Print(27) == "27" by { assert Print(2) == "2"; }
    assert "IR"[1..] == "R";
    assert Expand("R") == "27";
  }

  /** What is divided by 97: the account, the code of the country, the check digits. */
  lemma ShebaLayout(v: string)
    requires ShebaShape(v)
    ensures Expand(Rearranged(v)) == Layout(v)
  {
    assert v[4..] == v[2..][2..] && v[2..4] == v[2..][..2];
    assert v[..4] == "IR" + v[2..4];
    CountryCode();
    ExpandKeepsDigits(v[4..]);
    ExpandKeepsDigits(v[2..4]);
    ExpandConcat("IR", v[2..4]);
    ExpandConcat(v[4..], v[..4]);
  }

  /** Where the character at index `k` of the SHEBA stands in the expanded number. */
  function PlaceOf(k: nat): nat
    requires 2 <= k < 26
  {
    if k < 4 then 3 - k else 31 - k
  }

  lemma ShebaAfterSet(v: string, k: nat, c: char)
    requires ShebaShape(v) && 2 <= k < 26 && IsDigit(c)
    ensures ShebaShape(v[k := c])
    ensures ShebaNumber(v[k := c]) == ShebaNumber(v) + (DigitValue(c) - DigitValue(v[k])) * Pow10(PlaceOf(k))
  {
    var w := v[k := c];
    assert w[2..] == v[2..][k - 2 := c];
    ShebaLayout(v);
    ShebaLayout(w);
    hide Value, Expand, Rearranged, Pow10;
    LayoutAfterSet(v, k, c);
    ValueAfterSet(Layout(v), 27 - PlaceOf(k), c);
  }

  function Layout(v: string): string
    requires |v| == 26
  {
    v[4..] + "1827" + v[2..4]
  }

  lemma LayoutAfterSet(v: string, k: nat, c: char)
    requires |v| == 26 && 2 <= k < 26
    ensures |Layout(v)| == 28 && Layout(v)[27 - PlaceOf(k)] == v[k]
    ensures Layout(v[k := c]) == Layout(v)[27 - PlaceOf(k) := c]
  {
  }

  /** Ten is invertible modulo 97. */
  lemma {:induction false} PowerIsUnit(x: int, e: nat)
    requires (x * Pow10(e)) % 97 == 0
    ensures x % 97 == 0
  {
    if e == 0 {
      assert x * Pow10(e) == x;
    } else {
      var p := Pow10(e - 1);
      assert x * (10 * p) == 10 * (x * p);
      Residues.Cancel(10, x * p, 97, 68, 7);
      PowerIsUnit(x, e - 1);
    }
  }

  /** The inverse of a digit other than zero, modulo 97. */
  function Inverse97(u: int): (v: int)
    requires 1 <= u <= 9
    ensures v * u == 97 * (v * u / 97) + 1
  {
    match u case 1 => 1 case 2 => 49 case 3 => 65 case 4 => 73 case 5 => 39
            case 6 => 81 case 7 => 14 case 8 => 85 case _ => 54
  }

  /** Every change of a single digit is noticed. */
  lemma ShebaSubstitution(v: string, k: nat, c: char)
    requires ShebaHolds(v) && 2 <= k < 26 && IsDigit(c)
    ensures ShebaHolds(v[k := c]) <==> c == v[k]
  {
    ShebaAfterSet(v, k, c);
    var d := DigitValue(c) - DigitValue(v[k]);
    assert v[k] == v[2..][k - 2];
    Residues.Difference(ShebaNumber(v[k := c]), ShebaNumber(v), 97);
    assert c == v[k] ==> v[k := c] == v;
    if ShebaHolds(v[k := c]) { PowerIsUnit(d, PlaceOf(k)); }
  }

  /** None of the next `n` powers of ten leaves the remainder 1, starting from remainder `r`. */
  predicate NoneIsOne(r: nat, n: nat)
    decreases n
  {
    n == 0 || (10 * r % 97 != 1 && NoneIsOne(10 * r % 97, n - 1))
  }

  lemma OneMore(r: nat, next: nat, n: nat)
    requires next == 10 * r % 97 && next != 1 && NoneIsOne(next, n)
    ensures NoneIsOne(r, n + 1)
  {
  }

  lemma OrderOfTenUpper()
    ensures NoneIsOne(53, 13)
  {
    assert NoneIsOne(19, 0);
    hide NoneIsOne;
    OneMore(31, 19, 0); OneMore(71, 31, 1); OneMore(75, 71, 2); OneMore(56, 75, 3); OneMore(25, 56, 4);
    OneMore(51, 25, 5);
    OneMore(73, 51, 6); OneMore(17, 73, 7); OneMore(89, 17, 8); OneMore(38, 89, 9); OneMore(62, 38, 10);
    OneMore(45, 62, 11);
    OneMore(53, 45, 12);
  }

  /** The order of ten modulo 97 exceeds 27. */
  lemma OrderOfTen()
    ensures NoneIsOne(1, 27)
  {
    hide NoneIsOne;
    OrderOfTenUpper();
    OneMore(15, 53, 13); OneMore(50, 15, 14); OneMore(5, 50, 15); OneMore(49, 5, 16); OneMore(34, 49, 17);
    OneMore(81, 34, 18);
    OneMore(76, 81, 19); OneMore(27, 76, 20); OneMore(90, 27, 21); OneMore(9, 90, 22); OneMore(30, 9, 23);
    OneMore(3, 30, 24);
    OneMore(10, 3, 25); OneMore(1, 10, 26);
  }

  lemma {:induction false} NoneIsOneMeans(m: nat, n: nat, k: nat)
    requires NoneIsOne(Pow10(m) % 97, n) && m < k <= m + n
    ensures Pow10(k) % 97 != 1
    decreases n
  {
    DigitStepMod(Pow10(m), 0);
    if k > m + 1 { NoneIsOneMeans(m + 1, n - 1, k); }
  }

  lemma TimesTen(p: int, q: int)
    ensures 10 * (p * q) == (10 * p) * q
  {
  }

  lemma {:induction false} PowerSum(m: nat, n: nat)
    ensures Pow10(m + n) == Pow10(m) * Pow10(n)
  {
    if m == 0 {
    } else {
      PowerSum(m - 1, n);
      TimesTen(Pow10(m - 1), Pow10(n));
    }
  }

  lemma PowerDifference(q: nat, n: nat)
    ensures Pow10(q + n) - Pow10(q) == (Pow10(n) - 1) * Pow10(q)
  {
    PowerSum(q, n);
  }

  lemma PowerIsNotOne(n: nat)
    requires 0 < n < 28
    ensures (Pow10(n) - 1) % 97 != 0
  {
    hide NoneIsOne;
    OrderOfTen();
    NoneIsOneMeans(0, 27, n);
    Residues.Difference(Pow10(n), 1, 97);
  }

  lemma HigherPlaceDiffers(q: nat, n: nat)
    requires 0 < n < 28
    ensures (Pow10(q + n) - Pow10(q)) % 97 != 0
  {
    hide Pow10;
    PowerDifference(q, n);
    PowerIsNotOne(n);
    if (Pow10(q + n) - Pow10(q)) % 97 == 0 { PowerIsUnit(Pow10(n) - 1, q); }
  }

  /** Two places of the expanded number never weigh the same modulo 97. */
  lemma PlacesDiffer(p: nat, q: nat)
    requires p < 28 && q < 28 && p != q
    ensures (Pow10(p) - Pow10(q)) % 97 != 0
  {
    hide Pow10;
    if p > q {
      HigherPlaceDiffers(q, p - q);
    } else {
      HigherPlaceDiffers(p, q - p);
      Residues.Negative(Pow10(q) - Pow10(p), 97);
    }
  }

  lemma Distribute(d: int, a: int, b: int)
    ensures d * a + -d * b == d * (a - b)
  {
  }

  lemma SmallProductMod97(d: int, y: int)
    requires 1 <= Abs(d) <= 9 && y % 97 != 0
    ensures (d * y) % 97 != 0
  {
    Residues.Negative(d * y, 97);
    var u := Abs(d);
    assert -d * y == -(d * y);
    if (u * y) % 97 == 0 { Residues.Cancel(u, y, 97, Inverse97(u), Inverse97(u) * u / 97); }
  }

  /** Adding `d` at one place and taking it away at another is never a multiple of 97. */
  lemma ExchangeMoves(d: int, p: nat, q: nat)
    requires p < 28 && q < 28 && p != q && 1 <= Abs(d) <= 9
    ensures (d * Pow10(p) + -d * Pow10(q)) % 97 != 0
  {
    hide Pow10;
    PlacesDiffer(p, q);
    Distribute(d, Pow10(p), Pow10(q));
    SmallProductMod97(d, Pow10(p) - Pow10(q));
  }

  function Swap(s: string, i: nat, j: nat): (r: string)
    requires i < |s| && j < |s|
    ensures |r| == |s|
  {
    s[i := s[j]][j := s[i]]
  }

  /** Every exchange of two different digits, adjacent or not, is noticed. */
  lemma ShebaTransposition(v: string, i: nat, j: nat)
    requires ShebaHolds(v) && 2 <= i < j < 26
    ensures ShebaHolds(Swap(v, i, j)) <==> v[i] == v[j]
  {
    assert v[i] == v[2..][i - 2] && v[j] == v[2..][j - 2];
    assert IsDigit(v[i]) && IsDigit(v[j]) && |v| == 26;
    var w := v[i := v[j]];
    hide Pow10, ShebaNumber, ShebaShape;
    ShebaAfterSet(v, i, v[j]);
    ShebaAfterSet(w, j, v[i]);
    if v[i] == v[j] {
      assert Swap(v, i, j) == v;
    } else {
      ExchangeMoves(DigitValue(v[j]) - DigitValue(v[i]), PlaceOf(i), PlaceOf(j));
      hide DigitValue, IsDigit;
      Residues.Difference(ShebaNumber(Swap(v, i, j)), ShebaNumber(v), 97);
    }
  }

  function WithCheckDigits(account: string, check: nat): string
    requires check < 100
  {
    "IR" + [DigitChar(check / 10), DigitChar(check % 10)] + account
  }

  /** The check digits the standard computes: 98 minus the remainder with the check digits zero. */
  function CheckDigits(account: string): (c: nat)
    ensures 2 <= c <= 98
  {
    98 - Value(account + "182700") % 97
  }

  lemma ShebaNumberOfAccount(account: string, check: nat)
    requires IsNumeral(account) && |account| == 22 && check < 100
    ensures ShebaShape(WithCheckDigits(account, check))
    ensures ShebaNumber(WithCheckDigits(account, check)) == Value(account + "182700") + check
  {
    var v := WithCheckDigits(account, check);
    var pair := [DigitChar(check / 10), DigitChar(check % 10)];
    assert v[2..] == pair + account && v[4..] == account && v[2..4] == pair;
    ShebaLayout(v);
    var front := account + "1827";
    assert account + "182700" == front + "00";
    ValueOfConcat(front, pair);
    ValueOfConcat(front, "00");
    assert pair[..1] == [pair[0]] && "00"[..1] == "0";
  }

  /**
    * Every account number has exactly one pair of check digits between 02 and 98. The source does
    * not exclude 00, 01 and 99, so it also accepts these where the standard's pair is 97, 98 or 02.
    */
  lemma ShebaCheckDigits(account: string, check: nat)
    requires IsNumeral(account) && |account| == 22 && check < 100
    ensures ShebaHolds(WithCheckDigits(account, check)) <==> check % 97 == CheckDigits(account) % 97
    ensures 2 <= check <= 98 ==>
      (ShebaHolds(WithCheckDigits(account, check)) <==> check == CheckDigits(account))
  {
    ShebaNumberOfAccount(account, check);
    hide ShebaNumber, Value, ShebaShape;
    CheckResidue(Value(account + "182700"), check);
    SamePair(check, CheckDigits(account));
  }

  lemma SamePair(check: nat, c: nat)
    requires 2 <= c <= 98
    ensures 2 <= check <= 98 ==> (check % 97 == c % 97 <==> check == c)
  {
  }

  lemma CheckResidue(n: int, check: int)
    ensures (n + check) % 97 == 1 <==> check % 97 == (98 - n % 97) % 97
  {
    var z := check + n % 97 - 98;
    Residues.Reduce(n, check, 97);
    Residues.Difference(n % 97 + check, 1, 97);
    Residues.Difference(check, 98 - n % 97, 97);
    Residues.Difference(z + 97, z, 97);
  }

  /** A two-digit account number, with its leading zeros. */
  function SmallAccount(tens: char, ones: char): (r: string)
    requires IsDigit(tens) && IsDigit(ones)
    ensures |r| == 22 && IsNumeral(r)
  {
    Zeros(20) + [tens, ones]
  }

  lemma SmallAccountValue(tens: char, ones: char)
    requires IsDigit(tens) && IsDigit(ones)
    ensures Value(SmallAccount(tens, ones) + "182700")
         == (10 * DigitValue(tens) + DigitValue(ones)) * 1000000 + 182700
  {
    var zeros := Zeros(20);
    ZerosAreZero(20);
    ValueStep(zeros, tens);
    ValueStep(zeros + [tens], ones);
    ValueOfConcat(SmallAccount(tens, ones), "182700");
    SixDigits("182700");
    assert Pow10(6) == 1000000;
    hide Value, Zeros, Pow10;
    assert SmallAccount(tens, ones) == zeros + [tens] + [ones];
  }

  lemma SixDigits(s: string)
    requires |s| == 6
    ensures Value(s) == 100000 * DigitValue(s[0]) + 10000 * DigitValue(s[1]) + 1000 * DigitValue(s[2])
                        + 100 * DigitValue(s[3]) + 10 * DigitValue(s[4]) + DigitValue(s[5])
  {
    ValueStep(s[..5], s[5]);
    ValueStep(s[..4], s[4]);
    ValueStep(s[..3], s[3]);
    ValueStep(s[..2], s[2]);
    ValueStep(s[..1], s[1]);
    ValueStep("", s[0]);
    hide Value;
    assert s == s[..5] + [s[5]] && s[..5] == s[..4] + [s[4]] && s[..4] == s[..3] + [s[3]];
    assert s[..3] == s[..2] + [s[2]] && s[..2] == s[..1] + [s[1]] && s[..1] == "" + [s[0]];
    assert Value("") == 0 by { EmptyValue(); }
  }

  lemma EmptyValue()
    ensures Value("") == 0
  {
  }

  /**
    * The pairs 00, 01 and 99, which the standard's procedure never yields, are each accepted for some account:
    * for the accounts 9, 88 and 70.
    */
  lemma UnusualCheckDigitsAccepted()
    ensures ShebaHolds(WithCheckDigits(SmallAccount('0', '9'), 0))
    ensures ShebaHolds(WithCheckDigits(SmallAccount('8', '8'), 1))
    ensures ShebaHolds(WithCheckDigits(SmallAccount('7', '0'), 99))
  {
    hide ShebaHolds, SmallAccount, WithCheckDigits, Value;
    SmallAccountValue('0', '9');
    ShebaCheckDigits(SmallAccount('0', '9'), 0);
    SmallAccountValue('8', '8');
    ShebaCheckDigits(SmallAccount('8', '8'), 1);
    SmallAccountValue('7', '0');
    ShebaCheckDigits(SmallAccount('7', '0'), 99);
  }

  // ---------------------------------------------------------------------------------------------
  // Sums over positions, shared by the card and national-id checks

  function Total(term: (nat, char) -> int, s: string, n: nat): int
    requires n <= |s|
  {
    if n == 0 then 0 else Total(term, s, n - 1) + term(n - 1, s[n - 1])
  }

  lemma TotalOfNothing(term: (nat, char) -> int, s: string)
    ensures Total(term, s, 0) == 0
  {
  }

  lemma TotalStep(term: (nat, char) -> int, s: string, n: nat)
    requires 0 < n <= |s|
    ensures Total(term, s, n) == Total(term, s, n - 1) + term(n - 1, s[n - 1])
  {
  }

  lemma {:induction false} TotalAfterSet(term: (nat, char) -> int, s: string, k: nat, c: char, n: nat)
    requires k < |s| && n <= |s|
    ensures Total(term, s[k := c], n)
         == Total(term, s, n) + (if k < n then term(k, c) - term(k, s[k]) else 0)
  {
    if n == 0 {
    } else {
      TotalAfterSet(term, s, k, c, n - 1);
    }
  }

  // ---------------------------------------------------------------------------------------------
  // Bank cards: the Luhn check, ISO/IEC 7812-1 Annex B

  /** The source's doubling: the two digits of the double, added. */
  function Doubled(d: int): (r: int)
    ensures 0 <= d <= 9 ==> r == if d <= 4 then 2 * d else 2 * d - 9
  {
    (d * 2) % 10 + (d * 2) / 10
  }

  /** In a number of even length every second digit from the right stands at an even index. */
  function LuhnTerm(k: nat, c: char): int {
    if k % 2 == 0 then Doubled(DigitValue(c)) else DigitValue(c)
  }

  predicate CardHolds(s: string) {
    |s| == 16 && IsNumeral(s) && Total(LuhnTerm, s, 16) % 10 == 0
  }

  method IsValidCardNumber(input: string) returns (ok: bool)
    ensures ok <==> CardHolds(DigitsOf(input))
  {
    hide DigitsOf, Total;
    var digits := DigitsOf(input);
    if |digits| != 16 { return false; }
    var sum := 0;
    for i := 0 to 16
      invariant sum == Total(LuhnTerm, digits, 16) - Total(LuhnTerm, digits, 16 - i)
    {
      var digit := DigitValue(digits[15 - i]);
      var transformed := if i % 2 == 1 then (digit * 2) % 10 + (digit * 2) / 10 else digit;
      TotalStep(LuhnTerm, digits, 16 - i);
      sum := sum + transformed;
    }
    assert Total(LuhnTerm, digits, 0) == 0 by { TotalOfNothing(LuhnTerm, digits); }
    return sum % 10 == 0;
  }

  /** Digits are added in pairs from the left: the first of each doubled, less nine when that has two digits, the
      second as it is; so the last digit, the check digit, is not doubled. */
  lemma CardPair(s: string, j: nat)
    requires IsNumeral(s) && 2 * j + 2 <= |s|
    ensures Total(LuhnTerm, s, 0) == 0
    ensures
      var (a, b) := (DigitValue(s[2 * j]), DigitValue(s[2 * j + 1]));
      Total(LuhnTerm, s, 2 * j + 2)
      == Total(LuhnTerm, s, 2 * j) + (if a < 5 then 2 * a else 2 * a - 9) + b
  {
    TotalOfNothing(LuhnTerm, s);
    TotalStep(LuhnTerm, s, 2 * j + 2);
    TotalStep(LuhnTerm, s, 2 * j + 1);
    hide Total, Doubled;
  }

  /** The last digit is a check digit: whatever the other fifteen, it is the one number that is accepted. */
  lemma CardCheckDigit(s: string)
    requires |s| == 16 && IsNumeral(s)
    ensures CardHolds(s) <==> DigitValue(s[15]) == (10 - Total(LuhnTerm, s, 15) % 10) % 10
  {
    TotalStep(LuhnTerm, s, 16);
    hide Total, Doubled;
  }

  lemma LuhnTermTellsDigitsApart(k: nat, a: char, b: char)
    requires IsDigit(a) && IsDigit(b)
    ensures (LuhnTerm(k, a) - LuhnTerm(k, b)) % 10 == 0 <==> a == b
  {
    var d := LuhnTerm(k, a) - LuhnTerm(k, b);
    assert -9 <= d <= 9 && (d == 0 <==> a == b) by { hide Doubled; }
  }

  /** Every change of a single digit of a card number is noticed. */
  lemma CardSubstitution(s: string, k: nat, c: char)
    requires CardHolds(s) && k < 16 && IsDigit(c)
    ensures CardHolds(s[k := c]) <==> c == s[k]
  {
    TotalAfterSet(LuhnTerm, s, k, c, 16);
    LuhnTermTellsDigitsApart(k, c, s[k]);
    hide LuhnTerm, Total;
    Residues.Difference(Total(LuhnTerm, s[k := c], 16), Total(LuhnTerm, s, 16), 10);
  }

  /** What an exchange of a doubled digit `a` and a plain digit `b` does to the sum. */
  lemma LuhnExchange(a: int, b: int)
    requires 0 <= a <= 9 && 0 <= b <= 9
    ensures ((Doubled(b) + a) - (Doubled(a) + b)) % 10 == 0 <==> a == b || {a, b} == {0, 9}
    ensures ((Doubled(a) + b) - (Doubled(b) + a)) % 10 == 0 <==> a == b || {a, b} == {0, 9}
  {
    hide Doubled;
    assert {a, b} == {0, 9} <==> (a == 0 && b == 9) || (a == 9 && b == 0) by {
      assert a in {a, b} && b in {a, b} && 0 in {0, 9} && 9 in {0, 9};
    }
  }

  lemma LuhnNeighbours(k: nat, a: char, b: char)
    requires IsDigit(a) && IsDigit(b)
    ensures (LuhnTerm(k, b) - LuhnTerm(k, a) + LuhnTerm(k + 1, a) - LuhnTerm(k + 1, b)) % 10 == 0
      <==> a == b || {DigitValue(a), DigitValue(b)} == {0, 9}
  {
    LuhnExchange(DigitValue(a), DigitValue(b));
    hide Doubled;
  }

  /** An exchange of neighbours escapes notice exactly when they are equal, or a 0 and a 9. */
  lemma CardTransposition(s: string, k: nat)
    requires CardHolds(s) && k < 15
    ensures CardHolds(Swap(s, k, k + 1)) <==>
      s[k] == s[k + 1] || {DigitValue(s[k]), DigitValue(s[k + 1])} == {0, 9}
  {
    TotalAfterSet(LuhnTerm, s, k, s[k + 1], 16);
    TotalAfterSet(LuhnTerm, s[k := s[k + 1]], k + 1, s[k], 16);
    LuhnNeighbours(k, s[k], s[k + 1]);
    hide Total, LuhnTerm;
    Residues.Difference(Total(LuhnTerm, Swap(s, k, k + 1), 16), Total(LuhnTerm, s, 16), 10);
  }

  /** Digits two places apart are weighed alike, so exchanging them is never noticed. */
  lemma CardJumpTransposition(s: string, k: nat)
    requires CardHolds(s) && k < 14
    ensures CardHolds(Swap(s, k, k + 2))
  {
    TotalAfterSet(LuhnTerm, s, k, s[k + 2], 16);
    TotalAfterSet(LuhnTerm, s[k := s[k + 2]], k + 2, s[k], 16);
  }

  // ---------------------------------------------------------------------------------------------
  // Iranian national id

  /** Weights 10 down to 2; the check digit itself would weigh 1. */
  function IdTerm(k: nat, c: char): int { DigitValue(c) * (10 - k) }

  predicate AllSame(s: string) { forall i :: 0 <= i < |s| ==> s[i] == s[0] }

  /** The check digit of a weighted sum with remainder `r` modulo 11. */
  function IdCheck(r: int): int { if r < 2 then r else 11 - r }

  predicate NationalIdHolds(s: string) {
    |s| == 10 && IsNumeral(s) && !AllSame(s) && DigitValue(s[9]) == IdCheck(Total(IdTerm, s, 9) % 11)
  }

  method IsValidIranianNationalId(input: string) returns (ok: bool)
    ensures ok <==> NationalIdHolds(DigitsOf(input))
  {
    var value := DigitsOf(input);
    if |value| != 10 { return false; }
    if AllSame(value) { return false; }
    var check := DigitValue(value[9]);
    var sum := 0;
    for i := 0 to 9
      invariant sum == Total(IdTerm, value, i)
    {
      sum := sum + DigitValue(value[i]) * (10 - i);
    }
    var remainder := sum % 11;
    return check == if remainder < 2 then remainder else 11 - remainder;
  }

  /**
    * The check in one congruence: with the check digit weighing 1, the sum of all ten digits is
    * 0 modulo 11, or the check digit is 1 and the sum is 2.
    */
  lemma NationalIdCongruence(s: string)
    requires |s| == 10 && IsNumeral(s) && !AllSame(s)
    ensures NationalIdHolds(s) <==>
      Total(IdTerm, s, 10) % 11 == 0 || (s[9] == '1' && Total(IdTerm, s, 10) % 11 == 2)
  {
    var t, c := Total(IdTerm, s, 9), DigitValue(s[9]);
    assert Total(IdTerm, s, 10) == t + c;
    Residues.Reduce(t, c, 11);
  }

  /** An id of ten equal digits is refused, although seven of the ten have the right check digit. */
  lemma RepdigitsAreRefused(s: string, c: char)
    requires |s| == 10 && IsDigit(c) && forall i :: 0 <= i < 10 ==> s[i] == c
    ensures !NationalIdHolds(s)
    ensures Total(IdTerm, s, 9) == 54 * DigitValue(c)
  {
    IdSum(s);
  }

  /** Small factors are invertible modulo 11. */
  lemma SmallProductMod11(d: int, w: int)
    requires 1 <= Abs(d) <= 9 && 1 <= w <= 10
    ensures (w * d) % 11 != 0
  {
    if (w * d) % 11 == 0 { Residues.Cancel(w, d, 11, Inverse11(w), Inverse11(w) * w / 11); }
  }

  /** The inverse of a weight of the national id, modulo 11. */
  function Inverse11(w: int): (v: int)
    requires 1 <= w <= 10
    ensures v * w == 11 * (v * w / 11) + 1
  {
    match w case 1 => 1 case 2 => 6 case 3 => 4 case 4 => 3 case 5 => 9
            case 6 => 2 case 7 => 8 case 8 => 7 case 9 => 5 case _ => 10
  }

  lemma Factor(x: int, y: int, w: int)
    ensures x * w - y * w == w * (x - y)
  {
  }

  lemma IdTermTellsDigitsApart(k: nat, a: char, b: char)
    requires k < 9 && IsDigit(a) && IsDigit(b) && a != b
    ensures (IdTerm(k, a) - IdTerm(k, b)) % 11 != 0
  {
    var x, y, w := DigitValue(a), DigitValue(b), 10 - k;
    Factor(x, y, w);
    SmallProductMod11(x - y, w);
  }

  /** The exact fate of a single changed digit of a valid id. */
  lemma NationalIdSubstitution(s: string, k: nat, c: char)
    requires NationalIdHolds(s) && k < 10 && IsDigit(c) && c != s[k]
    ensures NationalIdHolds(s[k := c]) <==>
      k < 9 && s[9] == '1' && !AllSame(s[k := c]) && Total(IdTerm, s[k := c], 9) % 11 in {1, 10}
  {
    var t := s[k := c];
    TotalAfterSet(IdTerm, s, k, c, 9);
    if k < 9 {
      IdTermTellsDigitsApart(k, c, s[k]);
      hide Total, IdTerm;
      Residues.Difference(Total(IdTerm, t, 9), Total(IdTerm, s, 9), 11);
    }
  }

  lemma IdProducts(x: int, y: int, u: int, v: int)
    ensures y * u - x * u + x * v - y * v == (u - v) * (y - x)
  {
  }

  /** What exchanging the digits at `i` and `j` adds to the sum of all ten digits. */
  function Moment(s: string, i: nat, j: nat): int
    requires i < |s| && j < |s|
  {
    (j - i) * (DigitValue(s[j]) - DigitValue(s[i]))
  }

  lemma MomentOfSwap(total: int, once: int, twice: int, x: int, y: int, i: int, j: int)
    requires once == total + (y * (10 - i) - x * (10 - i))
    requires twice == once + (x * (10 - j) - y * (10 - j))
    ensures twice == total + (j - i) * (y - x)
  {
    IdProducts(x, y, 10 - i, 10 - j);
  }

  lemma TotalAfterSwap(s: string, i: nat, j: nat)
    requires |s| == 10 && i < j < 10
    ensures Total(IdTerm, Swap(s, i, j), 10) == Total(IdTerm, s, 10) + Moment(s, i, j)
  {
    TotalAfterSet(IdTerm, s, i, s[j], 10);
    TotalAfterSet(IdTerm, s[i := s[j]], j, s[i], 10);
    hide Total, DigitValue;
    var t := s[i := s[j]];
    assert t[j] == s[j];
    MomentOfSwap(Total(IdTerm, s, 10), Total(IdTerm, t, 10), Total(IdTerm, Swap(s, i, j), 10),
                 DigitValue(s[i]), DigitValue(s[j]), i, j);
  }

  lemma SwapKeepsDigits(s: string, i: nat, j: nat)
    requires i < j < |s| && IsNumeral(s) && !AllSame(s)
    ensures IsNumeral(Swap(s, i, j)) && !AllSame(Swap(s, i, j))
  {
    var t := Swap(s, i, j);
    assert t[i] == s[j] && t[j] == s[i];
    if AllSame(t) {
      assert forall k :: 0 <= k < |s| ==> s[k] == if k == i then t[j] else if k == j then t[i] else t[k];
    }
  }

  lemma ShiftedRemainder(t: int, moment: int)
    requires t % 11 in {0, 2} && moment % 11 != 0
    ensures (t + moment) % 11 == 0 <==> t % 11 == 2 && moment % 11 == 9
    ensures (t + moment) % 11 == 2 <==> t % 11 == 0 && moment % 11 == 2
  {
    Residues.Reduce(t, moment, 11);
    Residues.Reduce(moment, t % 11, 11);
  }

  /**
    * The exact fate of an exchange of any two digits of a valid id, the check digit included. With neither
    * check digit 1, every exchange of different digits is noticed.
    */
  lemma NationalIdTransposition(s: string, i: nat, j: nat)
    requires NationalIdHolds(s) && i < j < 10
    ensures NationalIdHolds(Swap(s, i, j)) <==>
      || s[i] == s[j]
      || (Total(IdTerm, s, 10) % 11 == 0 && Swap(s, i, j)[9] == '1' && Moment(s, i, j) % 11 == 2)
      || (Total(IdTerm, s, 10) % 11 == 2 && Moment(s, i, j) % 11 == 9)
    ensures s[9] != '1' && Swap(s, i, j)[9] != '1' ==> (NationalIdHolds(Swap(s, i, j)) <==> s[i] == s[j])
  {
    var t := Swap(s, i, j);
    NationalIdCongruence(s);
    if s[i] == s[j] {
      assert t == s;
    } else {
      SwapKeepsDigits(s, i, j);
      NationalIdCongruence(t);
      TotalAfterSwap(s, i, j);
      SmallProductMod11(DigitValue(s[j]) - DigitValue(s[i]), j - i);
      assert Moment(s, i, j) % 11 != 0;
      hide Total, NationalIdHolds, AllSame, Moment;
      ShiftedRemainder(Total(IdTerm, s, 10), Moment(s, i, j));
    }
  }

  /** What must be added to a sum with remainder 1 or 10 to reach the other of the two. */
  function Gap(s: string): int
    requires |s| >= 9
  {
    if Total(IdTerm, s, 9) % 11 == 1 then 9 else -9
  }

  /** The digit that closes the gap at position `k`, modulo 11; it is a digit unless it is ten. */
  function Alternative(s: string, k: nat): (d: int)
    requires |s| >= 9 && k < 9
    ensures 0 <= d <= 10
  {
    (DigitValue(s[k]) + Gap(s) * Inverse11(10 - k)) % 11
  }

  lemma AlternativeCloses(w: int, d: int, gap: int, other: int)
    requires 1 <= w <= 10 && other % 11 == (d + gap * Inverse11(w)) % 11
    ensures (w * (other - d)) % 11 == gap % 11
  {
    var v := Inverse11(w);
    var k := v * w / 11;
    Residues.Difference(other, d + gap * v, 11);
    var q := (other - d - gap * v) / 11;
    CloseGap(w, v, k, gap, other - d, q);
    Residues.Difference(w * (other - d), gap, 11);
    Residues.Multiple(w * q + gap * k, 11);
  }

  lemma CloseGap(w: int, v: int, k: int, gap: int, x: int, q: int)
    requires v * w == 11 * k + 1 && x == gap * v + 11 * q
    ensures w * x - gap == 11 * (w * q + gap * k)
  {
    calc {
      w * x - gap;
      w * (gap * v + 11 * q) - gap;
      gap * (v * w) + 11 * (w * q) - gap;
      gap * (11 * k + 1) + 11 * (w * q) - gap;
      11 * (w * q + gap * k);
    }
  }

  /** Where the alternative is a digit, it is a different digit and reaches the other remainder. */
  lemma AlternativeWorks(s: string, k: nat)
    requires NationalIdHolds(s) && s[9] == '1' && k < 9 && Alternative(s, k) <= 9
    ensures DigitChar(Alternative(s, k)) != s[k]
    ensures Total(IdTerm, s[k := DigitChar(Alternative(s, k))], 9) % 11 == 11 - Total(IdTerm, s, 9) % 11
  {
    var c := DigitChar(Alternative(s, k));
    var x, y, w, gap := DigitValue(c), DigitValue(s[k]), 10 - k, Gap(s);
    TotalAfterSet(IdTerm, s, k, c, 9);
    AlternativeCloses(w, y, gap, x);
    Factor(x, y, w);
    ReachOther(Total(IdTerm, s, 9), w * (x - y), gap);
    assert c == s[k] ==> w * (x - y) == 0;
  }

  lemma ReachOther(t: int, z: int, gap: int)
    requires z % 11 == gap % 11 && t % 11 in {1, 10} && gap == if t % 11 == 1 then 9 else -9
    ensures (t + z) % 11 == 11 - t % 11 && z % 11 != 0
  {
    Residues.Reduce(t, z, 11);
    Residues.Reduce(z, t % 11, 11);
  }

  lemma TenMeans(d: int, shift: int, e: int)
    requires 0 <= d <= 9 && 0 <= e <= 10
    requires (d + shift) % 11 == 10 && (e + shift) % 11 == 10
    ensures d == e
  {
    Residues.Difference(d + shift, e + shift, 11);
  }

  lemma IdSum(s: string)
    requires |s| >= 9
    ensures Total(IdTerm, s, 9) ==
      10 * DigitValue(s[0]) + 9 * DigitValue(s[1]) + 8 * DigitValue(s[2]) + 7 * DigitValue(s[3])
      + 6 * DigitValue(s[4]) + 5 * DigitValue(s[5]) + 4 * DigitValue(s[6]) + 3 * DigitValue(s[7])
      + 2 * DigitValue(s[8])
  {
    TotalOfNothing(IdTerm, s);
    TotalStep(IdTerm, s, 1); TotalStep(IdTerm, s, 2); TotalStep(IdTerm, s, 3);
    TotalStep(IdTerm, s, 4); TotalStep(IdTerm, s, 5); TotalStep(IdTerm, s, 6);
    TotalStep(IdTerm, s, 7); TotalStep(IdTerm, s, 8); TotalStep(IdTerm, s, 9);
    hide Total;
  }

  predicate Stuck(s: string, k: nat)
    requires |s| >= 9 && k < 9
  {
    Alternative(s, k) == 10
  }

  /** Ten at all nine positions would fix all nine digits, and those have neither remainder. */
  lemma NotAllStuck(s: string)
    requires NationalIdHolds(s) && s[9] == '1'
    ensures exists k :: 0 <= k < 9 && !Stuck(s, k)
  {
    if forall k :: 0 <= k < 9 ==> Stuck(s, k) {
      assert Stuck(s, 0) && Stuck(s, 1) && Stuck(s, 2) && Stuck(s, 3) && Stuck(s, 4);
      assert Stuck(s, 5) && Stuck(s, 6) && Stuck(s, 7) && Stuck(s, 8);
      StuckDigits(s);
      IdSum(s);
      assert false;
    }
  }

  lemma StuckDigits(s: string)
    requires |s| == 10 && IsNumeral(s)
    requires Stuck(s, 0) && Stuck(s, 1) && Stuck(s, 2) && Stuck(s, 3) && Stuck(s, 4)
    requires Stuck(s, 5) && Stuck(s, 6) && Stuck(s, 7) && Stuck(s, 8)
    ensures s[..9] == "892436570" || s[..9] == "107563429"
  {
    assert forall k :: 0 <= k < 9 ==> 0 <= DigitValue(s[k]) <= 9;
    hide Total, IsNumeral;
    if Gap(s) == 9 {
      TenMeans(DigitValue(s[0]), 90, 8); TenMeans(DigitValue(s[1]), 45, 9); TenMeans(DigitValue(s[2]), 63, 2);
      TenMeans(DigitValue(s[3]), 72, 4); TenMeans(DigitValue(s[4]), 18, 3); TenMeans(DigitValue(s[5]), 81, 6);
      TenMeans(DigitValue(s[6]), 27, 5); TenMeans(DigitValue(s[7]), 36, 7); TenMeans(DigitValue(s[8]), 54, 0);
    } else {
      TenMeans(DigitValue(s[0]), -90, 1); TenMeans(DigitValue(s[1]), -45, 0); TenMeans(DigitValue(s[2]), -63, 7);
      TenMeans(DigitValue(s[3]), -72, 5); TenMeans(DigitValue(s[4]), -18, 6); TenMeans(DigitValue(s[5]), -81, 3);
      TenMeans(DigitValue(s[6]), -27, 4); TenMeans(DigitValue(s[7]), -36, 2); TenMeans(DigitValue(s[8]), -54, 9);
    }
  }

  lemma OnesButOne(s: string, k: nat)
    requires |s| == 10 && !AllSame(s) && k < 9 && AllSame(s[k := '1']) && s[9] == '1'
    ensures s[k] != '1' && forall i :: 0 <= i < 10 && i != k ==> s[i] == '1'
  {
    var ones := s[k := '1'];
    assert ones[9] == s[9] == '1';
    assert forall i :: 0 <= i < 10 && i != k ==> s[i] == ones[i] && ones[i] == ones[0];
    assert s[k] == '1' ==> s == ones;
  }

  lemma OnesButOneRemainder(s: string, k: nat)
    requires NationalIdHolds(s) && k < 9 && AllSame(s[k := '1']) && s[9] == '1'
    ensures Total(IdTerm, s, 9) % 11 == 1
  {
    OnesButOne(s, k);
    IdSum(s[k := '1']);
    assert Total(IdTerm, s[k := '1'], 9) == 54;
    TotalAfterSet(IdTerm, s, k, '1', 9);
    IdTermTellsDigitsApart(k, '1', s[k]);
    hide Total, IdTerm, AllSame;
    Residues.Difference(54, Total(IdTerm, s, 9), 11);
  }

  /** A valid id one digit away from ten ones has another escape, at one of the last two places. */
  lemma NearlyAllOnes(s: string, k: nat)
    requires NationalIdHolds(s) && k < 9 && AllSame(s[k := '1']) && s[9] == '1'
    ensures if k == 8 then Misread(s, 7, '4') else Misread(s, 8, '0')
  {
    OnesButOne(s, k);
    OnesButOneRemainder(s, k);
    var j, c := if k == 8 then 7 else 8, if k == 8 then '4' else '0';
    assert s[j := c][k] == s[k] && s[j := c][9] == '1';
    TotalAfterSet(IdTerm, s, j, c, 9);
    NationalIdSubstitution(s, j, c);
  }

  /** Another id that differs from `s` in the digit at `k` alone. */
  predicate Misread(s: string, k: nat, c: char) {
    k < |s| && IsDigit(c) && c != s[k] && NationalIdHolds(s[k := c])
  }

  /**
    * The limit of the national-id check, for every valid id: all single-digit errors are noticed if
    * and only if the check digit is not 1. Remainders 1 and 10 share that check digit, and every id
    * that ends in 1 is one changed digit away from another valid id.
    */
  lemma NationalIdLimit(s: string)
    requires NationalIdHolds(s)
    ensures (forall k: nat, c :: !Misread(s, k, c)) <==> s[9] != '1'
  {
    if s[9] != '1' {
      forall k: nat, c ensures !Misread(s, k, c) {
        if k < 10 && IsDigit(c) && c != s[k] { NationalIdSubstitution(s, k, c); }
      }
    } else {
      NotAllStuck(s);
      var k: nat :| k < 9 && !Stuck(s, k);
      var c := DigitChar(Alternative(s, k));
      AlternativeWorks(s, k);
      NationalIdSubstitution(s, k, c);
      if AllSame(s[k := c]) {
        assert s[k := c][9] == '1' && s[k := c][k] == c;
        NearlyAllOnes(s, k);
      } else {
        assert Misread(s, k, c);
      }
    }
  }
}
