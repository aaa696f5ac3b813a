/**
  * JavaScript's numbers as far as money needs them: IEEE 754 binary64 with rounding to nearest, ties to
  * even (section 4.3.1 of IEEE 754-2008), given as a property of an arbitrary rounding function.
  */
module Doubles {
  import opened Prelude
  import Residues

  const TWO_52 := 4503599627370496
  const TWO_53 := 9007199254740992
  const TWO_107 := 162259276829213363391578010288128

  /** The power of two that separates neighbouring doubles with exponent `k`. */
  function Ulp(k: int): (u: real)
    ensures u > 0.0
    decreases Abs(k)
  {
    if k == 0 then 1.0 else if k > 0 then 2.0 * Ulp(k - 1) else Ulp(k + 1) / 2.0
  }

  /** The number with significand `m` and exponent `k`. */
  function Double(m: int, k: int): real { m as real * Ulp(k) }

  /** `x` lies between the neighbouring doubles with significands `m` and `m + 1`. */
  predicate Between(x: real, m: int, k: int) {
    TWO_52 <= m < TWO_53 && Double(m, k) <= x <= Double(m + 1, k)
  }

  /** The nearer of the two, and half way the one with the even significand. */
  function Nearest(x: real, m: int, k: int): real {
    var low, high := Double(m, k), Double(m + 1, k);
    if x - low < high - x || (x - low == high - x && m % 2 == 0) then low else high
  }

  ghost predicate RoundsAt(fl: real -> real, x: real, m: int, k: int) {
    Between(x, m, k) ==> fl(x) == Nearest(x, m, k) && fl(-x) == -Nearest(x, m, k)
  }

  /** `fl` rounds every real in the range of normal doubles as the standard says. */
  ghost predicate Rounds(fl: real -> real) {
    fl(0.0) == 0.0 && forall x: real, m: int, k: int :: -1074 <= k < 971 ==> RoundsAt(fl, x, m, k)
  }

  // ---------------------------------------------------------------------------------------------
  // Integers

  lemma NextDouble(m: int, k: int)
    ensures Double(m + 1, k) == Double(m, k) + Ulp(k)
  {
    hide Ulp;
    var u := Ulp(k);
    assert (m + 1) as real == m as real + 1.0;
    assert (m as real + 1.0) * u == m as real * u + u;
  }

  lemma DoubleIsKept(fl: real -> real, m: int, k: int)
    requires Rounds(fl) && TWO_52 <= m < TWO_53 && -1074 <= k < 971
    ensures fl(Double(m, k)) == Double(m, k) && fl(-Double(m, k)) == -Double(m, k)
  {
    NextDouble(m, k);
    assert RoundsAt(fl, Double(m, k), m, k);
    hide Double, Ulp, Rounds;
  }

  lemma UlpHalves(k: int)
    ensures Ulp(k) == 2.0 * Ulp(k - 1)
  {
  }

  lemma ShiftSignificand(j: int, k: int)
    ensures Double(j, k) == Double(2 * j, k - 1)
  {
    UlpHalves(k);
    hide Ulp;
    var x, u := j as real, Ulp(k - 1);
    assert (2 * j) as real == 2.0 * x;
    assert x * (2.0 * u) == (2.0 * x) * u;
  }

  lemma ShiftProduct(j: int, n: nat)
    requires n > 0
    ensures j * Pow2(n) == (2 * j) * Pow2(n - 1)
  {
    var p := Pow2(n - 1);
    assert j * (2 * p) == (2 * j) * p;
  }

  /** Any significand below 2^53 is held exactly; `n` bounds how far it is shifted up. */
  lemma {:induction false} SignificandIsKept(fl: real -> real, j: int, k: int, n: nat)
    requires Rounds(fl) && 1 <= j < TWO_53 && j * Pow2(n) >= TWO_52 && -1074 <= k - n && k < 971
    ensures fl(Double(j, k)) == Double(j, k) && fl(-Double(j, k)) == -Double(j, k)
    decreases n
  {
    assert n == 0 ==> j * Pow2(n) == j;
    hide Rounds, Double, Pow2;
    if j >= TWO_52 {
      DoubleIsKept(fl, j, k);
    } else {
      ShiftProduct(j, n);
      SignificandIsKept(fl, 2 * j, k - 1, n - 1);
      ShiftSignificand(j, k);
    }
  }

  lemma {:induction false} PowerSum(a: nat, b: nat)
    ensures Pow2(a + b) == Pow2(a) * Pow2(b)
  {
    if a == 0 {
    } else {
      PowerSum(a - 1, b);
      TimesTwo(Pow2(a - 1), Pow2(b));
    }
  }

  lemma TimesTwo(p: int, q: int)
    ensures 2 * (p * q) == (2 * p) * q
  {
  }

  lemma Powers()
    ensures Pow2(52) == TWO_52 && Pow2(53) == TWO_53
  {
    assert Pow2(13) == 8192;
    hide Pow2;
    PowerSum(13, 13);
    PowerSum(26, 26);
    assert Pow2(53) == 2 * Pow2(52) by { PowerStep(52); }
  }

  lemma PowerStep(n: nat)
    ensures Pow2(n + 1) == 2 * Pow2(n)
  {
  }

  /** Whole numbers of 53 digits and `Exponent(n)` more are multiples of that power of two apart. */
  function Exponent(n: nat): nat { if n < TWO_53 then 0 else 1 + Exponent(n / 2) }

  /** The integer nearest to `n` that has at most 53 significant binary digits; half way the even one. */
  function RoundedInteger(n: nat): nat {
    PowerIsPositive(Exponent(n));
    var u := Pow2(Exponent(n));
    var m, r := n / u, n % u;
    if 2 * r < u || (2 * r == u && m % 2 == 0) then m * u else (m + 1) * u
  }

  lemma AsDouble(n: int)
    ensures Double(n, 0) == n as real && Double(n, 1) == (2 * n) as real
  {
    UlpHalves(1);
  }

  lemma IntegerIsKept(fl: real -> real, n: int)
    requires Rounds(fl) && Abs(n) <= TWO_53
    ensures fl(n as real) == n as real
  {
    Powers();
    AsDouble(Abs(n));
    AsDouble(TWO_52);
    hide Pow2, Double, Ulp;
    if n == 0 {
    } else if Abs(n) < TWO_53 {
      AtLeastOnce(Pow2(52), Abs(n));
      SignificandIsKept(fl, Abs(n), 0, 52);
    } else {
      DoubleIsKept(fl, TWO_52, 1);
    }
  }

  lemma AtLeastOnce(p: nat, n: int)
    requires n >= 1
    ensures n * p >= p
  {
  }

  lemma ExponentIsOne(n: nat)
    requires TWO_53 <= n < 2 * TWO_53
    ensures Exponent(n) == 1 && Pow2(Exponent(n)) == 2
  {
    assert Exponent(n / 2) == 0;
    assert Pow2(1) == 2;
  }

  lemma HalfThenQuotient(n: nat, p: nat)
    requires p > 0
    ensures n / (2 * p) == n / 2 / p
  {
    var h := n / 2;
    assert n == 2 * (p * (h / p) + h % p) + n % 2;
    assert 2 * (p * (h / p)) == (2 * p) * (h / p);
    Residues.Unique(n, 2 * p, h / p, 2 * (h % p) + n % 2);
  }

  lemma {:induction false} SignificandRange(n: nat)
    requires n >= TWO_53
    ensures Pow2(Exponent(n)) > 0 && TWO_52 <= n / Pow2(Exponent(n)) < TWO_53
  {
    PowerIsPositive(Exponent(n));
    if n / 2 < TWO_53 {
      ExponentIsOne(n);
      hide Pow2, Exponent;
    } else {
      SignificandRange(n / 2);
      PowerStep(Exponent(n / 2));
      hide Pow2;
      HalfThenQuotient(n, Pow2(Exponent(n / 2)));
    }
  }

  lemma {:induction false} UlpIsPower(k: nat)
    ensures Ulp(k) == Pow2(k) as real
  {
    if k == 0 {
    } else {
      UlpIsPower(k - 1);
      PowerStep(k - 1);
      assert (2 * Pow2(k - 1)) as real == 2.0 * Pow2(k - 1) as real;
    }
  }

  /** From 2^53 on: the significand of a whole number, what it leaves over, and where it is rounded. */
  lemma SignificandOf(n: nat) returns (m: nat, r: nat, u: nat, k: nat)
    requires n >= TWO_53
    ensures k == Exponent(n) && u == Pow2(k) > 0 && u as real == Ulp(k)
    ensures n == m * u + r && r < u && TWO_52 <= m < TWO_53
    ensures RoundedInteger(n) == if 2 * r < u || (2 * r == u && m % 2 == 0) then m * u else (m + 1) * u
  {
    SignificandRange(n);
    k := Exponent(n);
    u := Pow2(k);
    UlpIsPower(k);
    hide Ulp, Pow2, Exponent;
    m, r := n / u, n % u;
  }

  /** The odd integers between 2^53 and 2^54 are not doubles: they go to the neighbouring multiple of 4. */
  lemma RoundedBelowTwice(n: nat)
    requires n < 2 * TWO_53
    ensures RoundedInteger(n) == if n <= TWO_53 || n % 2 == 0 then n else if n % 4 == 1 then n - 1 else n + 1
  {
    if n < TWO_53 {
      assert Pow2(0) == 1;
    } else {
      var m, r, u, k := SignificandOf(n);
      ExponentIsOne(n);
      hide RoundedInteger, Exponent, Pow2;
      assert n == m * 2 + r && (m + 1) * u == 2 * (m + 1);
    }
  }

  lemma IntegerNeighbours(n: nat, m: nat, r: nat, u: nat, k: int)
    requires n == m * u + r && r < u && Ulp(k) == u as real
    ensures Double(m, k) == (m * u) as real && Double(m + 1, k) == ((m + 1) * u) as real
    ensures n as real - Double(m, k) == r as real && Double(m + 1, k) - n as real == (u - r) as real
  {
    RealProduct(m, u);
    RealProduct(m + 1, u);
    hide Ulp;
    assert (m + 1) * u == m * u + u;
  }

  lemma LargeIntegerIsRounded(fl: real -> real, n: nat)
    requires Rounds(fl) && n >= TWO_53 && Exponent(n) < 971
    ensures fl(n as real) == RoundedInteger(n) as real && fl(-(n as real)) == -(RoundedInteger(n) as real)
  {
    var m, r, u, k := SignificandOf(n);
    IntegerNeighbours(n, m, r, u, k);
    hide Ulp, Rounds, RoundedInteger, Double, Exponent;
    NearestOfBetween(fl, n as real, m, k);
  }

  function RoundedWhole(n: int): int {
    var m: int := RoundedInteger(Abs(n));
    if n < 0 then -m else m
  }

  /** A whole number is rounded to a whole number, whatever its sign. */
  lemma IntegerIsRounded(fl: real -> real, n: int)
    requires Rounds(fl) && Abs(n) < TWO_107
    ensures fl(n as real) == RoundedWhole(n) as real
  {
    ExponentFits(Abs(n));
    hide Rounds;
    if Abs(n) < TWO_53 {
      IntegerIsKept(fl, n);
      RoundedBelowTwice(Abs(n));
    } else {
      LargeIntegerIsRounded(fl, Abs(n));
    }
    hide RoundedInteger;
  }

  lemma {:induction false} ExponentIs(n: nat, k: nat)
    requires TWO_52 * Pow2(k) <= n < TWO_53 * Pow2(k) && n >= TWO_52
    ensures Exponent(n) == k
  {
    if k == 0 {
    } else {
      PowerStep(k - 1);
      PowerIsPositive(k - 1);
      hide Pow2;
      if k > 1 || n >= TWO_53 { ExponentIs(n / 2, k - 1); }
    }
  }

  lemma ExponentFits(n: nat)
    requires n < TWO_107
    ensures Exponent(n) <= 54
  {
    Powers();
    PowerStep(53);
    hide Pow2, Exponent;
    ExponentBound(n, 54);
  }

  lemma {:induction false} ExponentBound(n: nat, j: nat)
    requires n < TWO_53 * Pow2(j)
    ensures Exponent(n) <= j
  {
    if n < TWO_53 {
    } else {
      assert j > 0;
      PowerStep(j - 1);
      ExponentBound(n / 2, j - 1);
    }
  }

  /** Rounding moves a whole number by at most one part in 2^52. */
  lemma RoundedNear(n: nat)
    ensures TWO_52 * (RoundedInteger(n) - n) <= n
  {
    if n < TWO_53 {
      assert Pow2(0) == 1;
    } else {
      var m, r, u, k := SignificandOf(n);
      AtLeastTimes(u, m, TWO_52);
      hide RoundedInteger;
      assert (m + 1) * u == m * u + u;
    }
  }

  lemma AtLeastTimes(u: nat, m: nat, least: nat)
    requires m >= least
    ensures m * u >= least * u
  {
  }

  // ---------------------------------------------------------------------------------------------
  // The order of doubles

  lemma Ordered(a: real, b: real, u: real)
    requires u > 0.0
    ensures a < b <==> a * u < b * u
    ensures a == b <==> a * u == b * u
  {
  }

  lemma RealProduct(x: int, y: int)
    ensures (x * y) as real == x as real * y as real
  {
  }

  lemma DoubleOrder(a: int, b: int, k: int)
    ensures a <= b <==> Double(a, k) <= Double(b, k)
    ensures a < b <==> Double(a, k) < Double(b, k)
  {
    hide Ulp;
    Ordered(a as real, b as real, Ulp(k));
  }

  lemma {:induction false} UlpGrows(j: int, k: int)
    requires j <= k
    ensures Ulp(j) <= Ulp(k)
    decreases k - j
  {
    if j < k {
      UlpGrows(j, k - 1);
      UlpHalves(k);
    }
  }

  lemma {:induction false} ShiftDown(a: int, k: int, n: nat)
    ensures Double(a, k) == Double(a * Pow2(n), k - n)
    decreases n
  {
    if n == 0 {
    } else {
      hide Double, Pow2;
      ShiftSignificand(a, k);
      ShiftDown(2 * a, k - 1, n - 1);
      ShiftProduct(a, n);
    }
  }

  lemma UpToNextExponent(a: int, j: int, b: int, k: int)
    requires a <= TWO_53 && TWO_52 <= b && j < k
    ensures Double(a, j) <= Double(b, k)
  {
    DoubleOrder(a, TWO_53, j);
    ShiftSignificand(TWO_52, j + 1);
    DoubleOrder(TWO_52, b, k);
    UlpGrows(j + 1, k);
    hide Ulp;
    var t, u, v := TWO_52 as real, Ulp(j + 1), Ulp(k);
    assert t * u <= t * v;
  }

  /** No double lies strictly between neighbouring ones. */
  lemma OrderOfDoubles(a: int, j: int, b: int, k: int)
    requires TWO_52 <= a <= TWO_53 && TWO_52 <= b < TWO_53 && Double(a, j) < Double(b + 1, k)
    ensures Double(a, j) <= Double(b, k)
  {
    if j < k {
      UpToNextExponent(a, j, b, k);
    } else {
      ShiftDown(a, j, j - k);
      var c := a * Pow2(j - k);
      hide Double;
      DoubleOrder(c, b + 1, k);
      DoubleOrder(c, b, k);
    }
  }

  lemma NearestOfBetween(fl: real -> real, x: real, m: int, k: int)
    requires Rounds(fl) && -1074 <= k < 971 && Between(x, m, k)
    ensures fl(x) == Nearest(x, m, k) && fl(-x) == -Nearest(x, m, k)
  {
    assert RoundsAt(fl, x, m, k);
    hide Nearest;
  }

  /** Rounding does not cross a double. */
  lemma RoundedAtLeast(fl: real -> real, x: real, m: int, k: int, a: int, j: int)
    requires Rounds(fl) && -1074 <= k < 971 && Between(x, m, k) && x < Double(m + 1, k)
    requires TWO_52 <= a <= TWO_53 && Double(a, j) <= x
    ensures Double(a, j) <= fl(x)
  {
    NearestOfBetween(fl, x, m, k);
    OrderOfDoubles(a, j, m, k);
    hide Rounds, Double;
  }

  lemma RoundedAtMost(fl: real -> real, x: real, m: int, k: int, a: int, j: int)
    requires Rounds(fl) && -1074 <= k < 971 && Between(x, m, k)
    requires TWO_52 <= a <= TWO_53 && x <= Double(a, j)
    ensures fl(x) <= Double(a, j)
  {
    NearestOfBetween(fl, x, m, k);
    NextDouble(m, k);
    if Double(a, j) < Double(m + 1, k) { OrderOfDoubles(a, j, m, k); }
    hide Rounds, Double, Ulp;
  }

  lemma AtTheJoint(x: real, m: int, k: int, n: int, j: int)
    requires Between(x, m, k) && Between(x, n, j) && Double(m + 1, k) <= Double(n, j)
    ensures Nearest(x, m, k) == Nearest(x, n, j)
  {
    NextDouble(m, k);
    NextDouble(n, j);
    hide Double, Ulp;
  }

  /** A number that lies between doubles in two ways is itself a double. */
  lemma NearestIsUnique(x: real, m: int, k: int, n: int, j: int)
    requires Between(x, m, k) && Between(x, n, j)
    ensures Nearest(x, m, k) == Nearest(x, n, j)
  {
    if k < j {
      UpToNextExponent(m + 1, k, n, j);
      AtTheJoint(x, m, k, n, j);
    } else if j < k {
      UpToNextExponent(n + 1, j, m, k);
      AtTheJoint(x, n, j, m, k);
    } else {
      DoubleOrder(m + 1, n, k);
      DoubleOrder(n + 1, m, k);
      hide Nearest, Double;
      if m < n { AtTheJoint(x, m, k, n, j); } else if n < m { AtTheJoint(x, n, j, m, k); }
    }
  }

  ghost predicate InRange(x: real) { exists m: int, k: int :: -1074 <= k < 971 && Between(x, m, k) }

  ghost function RoundedMagnitude(x: real): real
    requires InRange(x)
  {
    var m: int, k: int :| -1074 <= k < 971 && Between(x, m, k);
    Nearest(x, m, k)
  }

  /** Rounding to nearest, ties to even, on the range of normal doubles. */
  ghost function Rounded(x: real): real {
    if InRange(x) then RoundedMagnitude(x) else if InRange(-x) then -RoundedMagnitude(-x) else x
  }

  lemma BetweenIsPositive(x: real, m: int, k: int)
    requires Between(x, m, k)
    ensures x > 0.0
  {
    hide Ulp;
    Ordered(0.0, m as real, Ulp(k));
  }

  /** The standard's rounding exists: the assumption of the theorems about products can be met. */
  lemma RoundingExists()
    ensures Rounds(Rounded)
  {
    forall x: real, m: int, k: int | -1074 <= k < 971 ensures RoundsAt(Rounded, x, m, k) {
      if Between(x, m, k) { RoundedIsNearest(x, m, k); }
    }
    ZeroIsKept();
  }

  lemma ZeroIsKept()
    ensures Rounded(0.0) == 0.0
  {
    if InRange(0.0) {
      var m: int, k: int :| -1074 <= k < 971 && Between(0.0, m, k);
      BetweenIsPositive(0.0, m, k);
    }
    hide RoundedMagnitude;
  }

  lemma RoundedIsNearest(x: real, m: int, k: int)
    requires -1074 <= k < 971 && Between(x, m, k)
    ensures Rounded(x) == Nearest(x, m, k) && Rounded(-x) == -Nearest(x, m, k)
  {
    BetweenIsPositive(x, m, k);
    assert InRange(x);
    var n: int, j: int :| -1074 <= j < 971 && Between(x, n, j) && RoundedMagnitude(x) == Nearest(x, n, j);
    NearestIsUnique(x, m, k, n, j);
    if InRange(-x) {
      var a: int, b: int :| -1074 <= b < 971 && Between(-x, a, b);
      BetweenIsPositive(-x, a, b);
    }
    hide RoundedMagnitude, Nearest, Between;
    assert -(-x) == x;
  }

  // ---------------------------------------------------------------------------------------------
  // Quotients

  lemma {:induction false} FindExponent(x: real, k: int, top: int) returns (m: int, e: int)
    requires k <= top && Double(TWO_52, k) <= x < Double(TWO_53, top)
    ensures k <= e <= top && Between(x, m, e) && x < Double(m + 1, e)
    decreases top - k
  {
    ShiftSignificand(TWO_52, k + 1);
    if x < Double(TWO_53, k) {
      e := k;
      m := FindSignificand(x, k);
    } else {
      m, e := FindExponent(x, k + 1, top);
    }
  }

  lemma FindSignificand(x: real, k: int) returns (m: int)
    requires Double(TWO_52, k) <= x < Double(TWO_53, k)
    ensures Between(x, m, k) && x < Double(m + 1, k)
  {
    hide Ulp;
    QuotientTimes(x, Ulp(k));
    m := (x / Ulp(k)).Floor;
    FloorFits(x / Ulp(k), Ulp(k), x, TWO_52 as real, TWO_53 as real, m as real, (m + 1) as real);
  }

  lemma FloorFits(t: real, u: real, x: real, low: real, high: real, floor: real, next: real)
    requires u > 0.0 && t * u == x && floor <= t < next
    requires low * u <= x < high * u
    ensures low <= t < high && floor * u <= x < next * u
  {
    Ordered(low, t, u);
    Ordered(t, high, u);
    Ordered(floor, t, u);
    Ordered(t, next, u);
  }

  lemma {:induction false} UlpInverse(j: nat)
    ensures Ulp(0 - j) * Pow2(j) as real == 1.0
  {
    if j == 0 {
    } else {
      UlpInverse(j - 1);
      UlpHalves(1 - j);
      var u, p := Ulp(0 - j), Pow2(j - 1);
      assert (2 * p) as real == 2.0 * p as real;
      assert u * (2.0 * p as real) == (2.0 * u) * p as real;
    }
  }

  lemma QuotientTimes(x: real, d: real)
    requires d > 0.0
    ensures (x / d) * d == x
  {
  }

  lemma SmallestQuotient(x: real, d: real, u: real, t: real)
    requires 0.0 < d <= t && x * d >= 1.0 && u > 0.0 && u * (t * t) == 1.0
    ensures x >= t * u
  {
    var v := t * u;
    Ordered(x, v, d);
    Ordered(d, t, v);
    assert d * v == v * d;
    assert t * v == u * (t * t);
  }

  lemma QuotientIsLarge(s: int, d: int)
    requires 1 <= s && 1 <= d <= TWO_53
    ensures Double(TWO_52, -106) <= s as real / d as real
  {
    var x, dr, u, t := s as real / d as real, d as real, Ulp(-106), TWO_53 as real;
    QuotientTimes(s as real, dr);
    UlpInverse(106);
    PowerSum(53, 53);
    Powers();
    RealProduct(TWO_53, TWO_53);
    hide Ulp, Pow2;
    SmallestQuotient(x, dr, u, t);
    Ordered(TWO_52 as real, t, u);
  }

  lemma {:induction false} PowerIsPositive(n: nat)
    ensures Pow2(n) > 0
  {
    if n == 0 {
    } else {
      PowerIsPositive(n - 1);
    }
  }

  lemma QuotientIsSmall(s: int, d: int)
    requires 1 <= s < TWO_107 && 1 <= d
    ensures s as real / d as real < Double(TWO_53, 54)
  {
    var x, dr := s as real / d as real, d as real;
    QuotientTimes(s as real, dr);
    Powers();
    PowerStep(53);
    UlpIsPower(54);
    hide Ulp, Pow2;
    RealProduct(TWO_53, 2 * TWO_53);
    Ordered(0.0, x, dr);
    Ordered(1.0, dr, x);
  }

  lemma QuotientExponent(s: int, d: int) returns (m: int, k: int)
    requires 1 <= s < TWO_107 && 1 <= d <= TWO_53
    ensures -106 <= k <= 54
    ensures Between(s as real / d as real, m, k) && s as real / d as real < Double(m + 1, k)
  {
    QuotientIsLarge(s, d);
    QuotientIsSmall(s, d);
    m, k := FindExponent(s as real / d as real, -106, 54);
  }

  /** Just below the integer `n` neighbouring doubles are 1 / PartsBelow(n) apart. */
  function PartsBelow(n: nat): (j: nat)
    requires 1 <= n <= TWO_53
    ensures j >= 1 && TWO_52 < n * j <= TWO_53
    decreases TWO_53 - n
  {
    if n > TWO_52 then 1 else 2 * PartsBelow(2 * n)
  }

  /** And from `n` on 1 / PartsAbove(n). */
  function PartsAbove(n: nat): (j: nat)
    requires 1 <= n < TWO_53
    ensures j >= 1 && TWO_52 <= n * j < TWO_53
    decreases TWO_53 - n
  {
    if n >= TWO_52 then 1 else 2 * PartsAbove(2 * n)
  }

  /** The rounded quotient of `s` by `d` reaches `n`: the quotient does, or it misses `n` by less than half the
      distance of doubles there, or by exactly half and `n` is the even one. */
  predicate Reaches(s: int, d: int, n: nat)
    requires d > 0 && n <= TWO_53
  {
    s >= n * d || (n > 0 && var gap := 2 * ((n * d - s) * PartsBelow(n));
                   gap < d || (gap == d && (n * PartsBelow(n)) % 2 == 0))
  }

  /** The rounded quotient does not exceed `n`. */
  predicate Stays(s: int, d: int, n: int)
    requires d > 0 && n < TWO_53
  {
    s <= n * d || (n > 0 && var gap := 2 * ((s - n * d) * PartsAbove(n));
                   gap < d || (gap == d && (n * PartsAbove(n)) % 2 == 0))
  }

  lemma HalfAnInverse(u: real, p: int, v: real)
    requires u * p as real == 1.0 && u == 2.0 * v
    ensures v * (2 * p) as real == 1.0
  {
    assert (2 * p) as real == 2.0 * p as real;
    assert v * (2.0 * p as real) == (2.0 * v) * p as real;
  }

  lemma {:induction false} ExponentBelow(n: nat, i: nat) returns (k: int)
    requires 1 <= n <= TWO_53 && n * Pow2(i) > TWO_52
    ensures 0 - i <= k <= 0 && Ulp(k) * PartsBelow(n) as real == 1.0
    decreases TWO_53 - n
  {
    if n > TWO_52 {
      k := 0;
    } else {
      assert i == 0 ==> n * Pow2(i) == n;
      ShiftProduct(n, i);
      hide Pow2;
      k := ExponentBelow(2 * n, i - 1);
      UlpHalves(k);
      HalfAnInverse(Ulp(k), PartsBelow(2 * n), Ulp(k - 1));
      k := k - 1;
    }
  }

  lemma {:induction false} ExponentAbove(n: nat, i: nat) returns (k: int)
    requires 1 <= n < TWO_53 && n * Pow2(i) >= TWO_52
    ensures 0 - i <= k <= 0 && Ulp(k) * PartsAbove(n) as real == 1.0
    decreases TWO_53 - n
  {
    if n >= TWO_52 {
      k := 0;
    } else {
      assert i == 0 ==> n * Pow2(i) == n;
      ShiftProduct(n, i);
      hide Pow2;
      k := ExponentAbove(2 * n, i - 1);
      UlpHalves(k);
      HalfAnInverse(Ulp(k), PartsAbove(2 * n), Ulp(k - 1));
      k := k - 1;
    }
  }

  lemma IntegerAsDouble(n: int, u: real, p: int)
    requires u * p as real == 1.0
    ensures (n * p) as real * u == n as real
  {
    RealProduct(n, p);
    var nr, pr := n as real, p as real;
    assert (nr * pr) * u == nr * (u * pr);
  }

  /** A distance `g` of the quotient from an integer, compared with the distance `u` of doubles in integers. */
  lemma GapInIntegers(g: real, gap: int, d: int, u: real, p: int, c: int)
    requires d > 0 && p > 0 && g * d as real == gap as real && u * p as real == 1.0
    ensures c as real * g < u <==> c * (gap * p) < d
    ensures c as real * g == u <==> c * (gap * p) == d
  {
    var dr, pr, cr := d as real, p as real, c as real;
    RealProduct(gap, p);
    RealProduct(c, gap * p);
    Ordered(cr * g, u, pr);
    Ordered((cr * g) * pr, 1.0, dr);
    assert ((cr * g) * pr) * dr == cr * ((g * dr) * pr);
  }

  lemma Gap(x: real, s: int, d: int, n: int)
    requires x * d as real == s as real
    ensures (n as real - x) * d as real == (n * d - s) as real
    ensures (x - n as real) * d as real == (s - n * d) as real
  {
    RealProduct(n, d);
  }

  lemma QuotientOrder(x: real, s: int, d: int, n: int)
    requires d > 0 && x * d as real == s as real
    ensures x >= n as real <==> s >= n * d
    ensures x <= n as real <==> s <= n * d
  {
    RealProduct(n, d);
    Ordered(n as real, x, d as real);
    Ordered(x, n as real, d as real);
  }

  lemma IntegerBelow(n: nat) returns (e: int)
    requires 1 <= n <= TWO_53
    ensures -53 <= e <= 0 && Ulp(e) * PartsBelow(n) as real == 1.0
    ensures Double(n * PartsBelow(n), e) == n as real
  {
    Powers();
    AtLeastOnce(Pow2(53), n);
    hide Ulp, Pow2, PartsBelow;
    e := ExponentBelow(n, 53);
    IntegerAsDouble(n, Ulp(e), PartsBelow(n));
  }

  lemma IntegerAbove(n: nat) returns (e: int)
    requires 1 <= n < TWO_53
    ensures -53 <= e <= 0 && Ulp(e) * PartsAbove(n) as real == 1.0
    ensures Double(n * PartsAbove(n), e) == n as real
  {
    Powers();
    AtLeastOnce(Pow2(53), n);
    hide Ulp, Pow2, PartsAbove;
    e := ExponentAbove(n, 53);
    IntegerAsDouble(n, Ulp(e), PartsAbove(n));
  }

  /** The quotient just misses `n` from below: `n` is the double with significand `a + 1` and exponent `e`. */
  lemma ReachesFromBelow(fl: real -> real, x: real, m: int, k: int, n: real, gap: int, d: int, a: int, e: int, p: int)
    requires Rounds(fl) && -1074 <= k < 971 && Between(x, m, k) && -1074 <= e < 971
    requires d > 0 && p > 0 && Ulp(e) * p as real == 1.0 && (n - x) * d as real == gap as real
    requires TWO_52 <= a < TWO_53 && Double(a + 1, e) == n && x < n
    ensures fl(x) >= n <==> 2 * (gap * p) < d || (2 * (gap * p) == d && (a + 1) % 2 == 0)
  {
    var u := Ulp(e);
    NextDouble(a, e);
    hide Ulp, Double, Rounds;
    GapInIntegers(n - x, gap, d, u, p, 1);
    GapInIntegers(n - x, gap, d, u, p, 2);
    if x < Double(a, e) {
      RoundedAtMost(fl, x, m, k, a, e);
    } else {
      NearestOfBetween(fl, x, a, e);
    }
  }

  /** And from above: `n` is the double with significand `a`. */
  lemma StaysFromAbove(fl: real -> real, x: real, m: int, k: int, n: real, gap: int, d: int, a: int, e: int, p: int)
    requires Rounds(fl) && -1074 <= k < 971 && Between(x, m, k) && x < Double(m + 1, k) && -1074 <= e < 971
    requires d > 0 && p > 0 && Ulp(e) * p as real == 1.0 && (x - n) * d as real == gap as real
    requires TWO_52 <= a < TWO_53 && Double(a, e) == n && n < x
    ensures fl(x) <= n <==> 2 * (gap * p) < d || (2 * (gap * p) == d && a % 2 == 0)
  {
    var u := Ulp(e);
    NextDouble(a, e);
    hide Ulp, Double, Rounds;
    GapInIntegers(x - n, gap, d, u, p, 1);
    GapInIntegers(x - n, gap, d, u, p, 2);
    if x > Double(a + 1, e) {
      RoundedAtLeast(fl, x, m, k, a + 1, e);
    } else {
      NearestOfBetween(fl, x, a, e);
    }
  }

  /** Exactly when the rounded quotient reaches an integer. */
  lemma RoundedReachesIff(fl: real -> real, s: int, d: int, n: nat)
    requires Rounds(fl) && 1 <= s < TWO_107 && 1 <= d <= TWO_53 && 1 <= n <= TWO_53
    ensures fl(s as real / d as real) >= n as real <==> Reaches(s, d, n)
  {
    var x := s as real / d as real;
    QuotientTimes(s as real, d as real);
    hide Rounds, Double, Ulp, PartsBelow, Between;
    var m, k := QuotientExponent(s, d);
    QuotientOrder(x, s, d, n);
    var e := IntegerBelow(n);
    var p := PartsBelow(n);
    if s >= n * d {
      RoundedAtLeast(fl, x, m, k, n * p, e);
    } else {
      Gap(x, s, d, n);
      ReachesFromBelow(fl, x, m, k, n as real, n * d - s, d, n * p - 1, e, p);
    }
  }

  /** And exactly when it does not exceed one. */
  lemma RoundedStaysIff(fl: real -> real, s: int, d: int, n: nat)
    requires Rounds(fl) && 1 <= s < TWO_107 && 1 <= d <= TWO_53 && 1 <= n < TWO_53
    ensures fl(s as real / d as real) <= n as real <==> Stays(s, d, n)
  {
    var x := s as real / d as real;
    QuotientTimes(s as real, d as real);
    hide Rounds, Double, Ulp, PartsAbove, Between;
    var m, k := QuotientExponent(s, d);
    QuotientOrder(x, s, d, n);
    var e := IntegerAbove(n);
    var p := PartsAbove(n);
    if s <= n * d {
      RoundedAtMost(fl, x, m, k, n * p, e);
    } else {
      Gap(x, s, d, n);
      StaysFromAbove(fl, x, m, k, n as real, s - n * d, d, n * p, e, p);
    }
  }

  lemma QuotientSign(fl: real -> real, s: int, d: int)
    requires Rounds(fl) && 1 <= s < TWO_107 && 1 <= d <= TWO_53
    ensures fl(s as real / d as real) > 0.0
    ensures fl(-(s as real / d as real)) == -fl(s as real / d as real)
  {
    var m, k := QuotientExponent(s, d);
    var x := s as real / d as real;
    NextDouble(m, k);
    BetweenIsPositive(Double(m, k), m, k);
    NearestOfBetween(fl, x, m, k);
    hide Double, Ulp, Rounds;
  }

  lemma FloorAtLeast(f: real, n: int)
    ensures f.Floor >= n <==> f >= n as real
  {
  }

  /** The whole part of a rounded quotient, for a positive divisor, determined by the integers it reaches. */
  lemma WholePartReaches(fl: real -> real, s: int, d: int, n: nat)
    requires Rounds(fl) && 0 <= s < TWO_107 && 1 <= d <= TWO_53 && n <= TWO_53
    ensures fl(s as real / d as real).Floor >= n <==> Reaches(s, d, n)
  {
    var f := fl(s as real / d as real);
    FloorAtLeast(f, n);
    hide PartsBelow;
    if s == 0 {
      NotReachedFromZero(d, n);
    } else {
      QuotientSign(fl, s, d);
      if n > 0 { RoundedReachesIff(fl, s, d, n); }
    }
  }

  lemma NotReachedFromZero(d: int, n: nat)
    requires d > 0 && n <= TWO_53
    ensures Reaches(0, d, n) <==> n == 0
  {
    hide PartsBelow;
    if n > 0 {
      var p := PartsBelow(n);
      AtLeastOnce(d, n);
      AtLeastOnce(n * d, p);
    }
  }

  lemma ReachesOneIff(s: int, d: int)
    requires 1 <= d <= TWO_53
    ensures Reaches(s, d, 1) <==> s >= d
  {
    var p := PartsBelow(1);
    assert p > TWO_52;
    hide PartsBelow;
    if s < d { AtLeastTimes(p, d - s, 1); }
  }

  lemma OppositeDivisor(x: real, d: real)
    requires d != 0.0
    ensures x / -d == -(x / d) && -x / -d == x / d
  {
  }

  /** For a negative divisor the whole part is found from the integers that the quotient does not exceed. */
  lemma WholePartStays(fl: real -> real, s: int, d: int, n: int)
    requires Rounds(fl) && -TWO_53 <= s < TWO_107 && 1 <= d <= TWO_53 && -1 <= n < TWO_53
    requires s <= 0 ==> -s <= d
    ensures fl(s as real / (-d) as real).Floor >= -n <==> Stays(s, d, n)
  {
    var f := fl(s as real / (-d) as real);
    OppositeDivisor(s as real, d as real);
    OppositeDivisor((-s) as real, d as real);
    FloorAtLeast(f, -n);
    hide PartsBelow, PartsAbove, Rounds, Reaches;
    if s > 0 {
      QuotientSign(fl, s, d);
      if n > 0 { RoundedStaysIff(fl, s, d, n); }
    } else {
      assert f == fl((-s) as real / d as real);
      WholePartReaches(fl, -s, d, 0);
      WholePartReaches(fl, -s, d, 1);
      ReachesOneIff(-s, d);
      if n > 0 { AtLeastOnce(d, n); }
    }
  }

  lemma {:induction false} PartsArePower(n: nat, i: nat) returns (j: nat)
    requires 1 <= n <= TWO_53 && n * Pow2(i) > TWO_52
    ensures j <= i && PartsBelow(n) == Pow2(j)
    decreases i
  {
    if n > TWO_52 {
      j := 0;
    } else {
      assert i == 0 ==> n * Pow2(i) == n;
      ShiftProduct(n, i);
      hide Pow2;
      j := PartsArePower(2 * n, i - 1);
      PowerStep(j);
      j := j + 1;
    }
  }

  /** The integer before `n` is still a number of at least 53 digits in the parts below `n`. */
  lemma PartsOfPrevious(n: nat)
    requires 2 <= n <= TWO_53
    ensures (n - 1) * PartsBelow(n) >= TWO_52
  {
    Powers();
    hide Pow2, PartsBelow;
    var p := PartsBelow(n);
    var j := PartsArePower(n, 52);
    PowerSum(52 - j, j);
    var t := Pow2(52 - j);
    assert 52 - j + j == 52 && t * p == TWO_52;
    if n - 1 < t { AtLeastTimes(p, t, n); }
    AtLeastTimes(p, n - 1, t);
  }

  /** `n` is the integer above the quotient `q`, `r` what is missing. */
  lemma GapIsWide(s: int, d: int, n: int, r: int, p: int)
    requires d >= 1 && n >= 2 && r >= 1 && n * d == s + r && (n - 1) * p >= TWO_52 && 2 * (r * p) <= d
    ensures s >= r * TWO_53 + d - r
  {
    var q := n - 1;
    AtLeastTimes(q, d, 2 * (r * p));
    AtLeastTimes(r, q * p, TWO_52);
    assert (2 * (r * p)) * q == 2 * ((q * p) * r);
    assert n * d == d * q + d;
  }

  /** A small number, or one that exceeds 2^53 by no more than half the divisor. */
  predicate Small(s: int, d: int) { s < TWO_53 || (s <= TWO_53 + d / 2 && (d >= 3 || s == TWO_53)) }

  /** The rounded quotient of such a number reaches no integer that the exact one does not reach. */
  lemma SmallReachesIff(s: nat, d: int, n: nat)
    requires 1 <= d <= TWO_53 && n <= TWO_53 && Small(s, d)
    ensures Reaches(s, d, n) <==> s >= n * d
  {
    if s < n * d {
      var p, r := PartsBelow(n), n * d - s;
      hide PartsBelow;
      if 2 * (r * p) <= d {
        if n == 1 {
          AtLeastTimes(p, r, 1);
        } else {
          PartsOfPrevious(n);
          GapIsWide(s, d, n, r, p);
        }
      }
    }
  }

  lemma GapAboveIsWide(s: int, d: int, n: int, r: int, p: int)
    requires n >= 1 && r >= 1 && n * d == s - r && n * p >= TWO_52 && 2 * (r * p) <= d
    ensures s >= r * TWO_53 + r
  {
    AtLeastTimes(n, d, 2 * (r * p));
    AtLeastTimes(r, n * p, TWO_52);
    assert (2 * (r * p)) * n == 2 * ((n * p) * r);
  }

  lemma SmallStaysIff(s: int, d: int, n: int)
    requires 1 <= d && n < TWO_53 && s < TWO_53
    ensures Stays(s, d, n) <==> s <= n * d
  {
    if s > n * d && n > 0 {
      var p, r := PartsAbove(n), s - n * d;
      hide PartsAbove;
      if 2 * (r * p) <= d { GapAboveIsWide(s, d, n, r, p); }
    }
  }

  lemma QuotientIs(x: real, d: real, q: real)
    requires d > 0.0 && x == q * d
    ensures x / d == q
  {
    QuotientTimes(x, d);
    Ordered(x / d, q, d);
  }

  lemma WholeQuotient(fl: real -> real, s: int, d: int)
    requires Rounds(fl) && d > 0 && s % d == 0 && Abs(s / d) <= TWO_53
    ensures fl(s as real / d as real) == (s / d) as real
  {
    assert s == (s / d) * d;
    RealProduct(s / d, d);
    QuotientIs(s as real, d as real, (s / d) as real);
    IntegerIsKept(fl, s / d);
  }

  lemma QuotientMagnitude(s: int, d: int)
    requires d > 0
    ensures Abs(s / d) <= Abs(s)
  {
    var q := s / d;
    assert s == d * q + s % d;
    if q >= 0 {
      AtLeastOnce(q, d);
    } else {
      AtLeastOnce(-(q + 1), d);
      assert d * -(q + 1) == -(d * q) - d;
    }
  }

  lemma HalfAtMost(s: nat, d: int)
    requires d >= 2
    ensures 0 <= 2 * (s / d) <= s
  {
    var q := s / d;
    Residues.Divide(s, d);
    assert (d - 2) * q >= 0;
    assert (d - 2) * q == d * q - 2 * q;
  }

  lemma QuotientBetween(s: nat, d: int, q: int)
    requires d > 0 && q == s / d
    ensures 0 <= q && q * d <= s < (q + 1) * d
  {
    Residues.Divide(s, d);
    assert (q + 1) * d == d * q + d;
  }

  lemma NegatedQuotient(s: int, d: int) returns (c: nat)
    requires d > 0 && s < 0
    ensures c == -(s / d) && 1 <= c <= -s && -s <= c * d && !(-s <= (c - 1) * d)
  {
    var q := s / d;
    assert s == d * q + s % d;
    assert -q * d == -(d * q) && (-q - 1) * d == -(d * q) - d;
    assert q >= 0 ==> d * q >= 0;
    c := -q;
    AtLeastTimes(c - 1, d, 1);
    assert d * (c - 1) == (c - 1) * d;
  }

  lemma NegativeQuotient(fl: real -> real, s: int, d: int)
    requires Rounds(fl) && 0 < d <= TWO_53 && -TWO_53 < s < 0
    ensures fl(s as real / d as real).Floor == s / d
  {
    var c := NegatedQuotient(s, d);
    OppositeDivisor((-s) as real, d as real);
    assert s as real / d as real == (-s) as real / (-d) as real;
    hide Rounds, Stays;
    WholePartStays(fl, -s, d, c);
    WholePartStays(fl, -s, d, c - 1);
    SmallStaysIff(-s, d, c);
    SmallStaysIff(-s, d, c - 1);
  }

  /**
    * A quotient of integers keeps its whole part when it is rounded: for every numerator below 2^53 in
    * magnitude, and for larger ones that exceed 2^53 by no more than half the divisor.
    */
  lemma RoundedQuotient(fl: real -> real, s: int, d: int)
    requires Rounds(fl) && 0 < d <= TWO_53 && s > -TWO_53 && Small(s, d)
    ensures fl(s as real / d as real).Floor == s / d
  {
    QuotientMagnitude(s, d);
    hide Rounds;
    if s < 0 {
      NegativeQuotient(fl, s, d);
    } else {
      if d >= 2 { HalfAtMost(s, d); }
      if s / d == TWO_53 {
        WholeQuotient(fl, s, d);
      } else {
        hide Reaches, Small;
        var q := s / d;
        QuotientBetween(s, d, q);
        WholePartReaches(fl, s, d, q);
        WholePartReaches(fl, s, d, q + 1);
        SmallReachesIff(s, d, q);
        SmallReachesIff(s, d, q + 1);
      }
    }
  }
}
