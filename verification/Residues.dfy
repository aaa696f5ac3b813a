/** Remainders: the few laws the check-digit and rounding proofs need, for any positive modulus. */
module Residues {

  /** Quotient and remainder are determined by what they add up to. */
  lemma Unique(x: int, m: int, q: int, r: int)
    requires m > 0 && x == m * q + r && 0 <= r < m
    ensures x / m == q && x % m == r
  {
    var d := q - x / m;
    assert m * q - m * (x / m) == m * d;
    assert m * d == x % m - r;
    assert d > 0 ==> m * d >= m;
    assert d < 0 ==> m * d <= -m;
  }

  /** A sum may be reduced one summand at a time. */
  lemma Reduce(a: int, b: int, m: int)
    requires m > 0
    ensures (a + b) % m == (a % m + b) % m
  {
    var s := a % m + b;
    assert m * (a / m) + m * (s / m) == m * (a / m + s / m);
    Unique(a + b, m, a / m + s / m, s % m);
  }

  lemma Multiple(z: int, m: int)
    requires m > 0
    ensures (m * z) % m == 0
  {
    Unique(m * z, m, z, 0);
  }

  /** Equal remainders mean a difference that is a multiple. */
  lemma Difference(a: int, b: int, m: int)
    requires m > 0
    ensures a % m == b % m <==> (a - b) % m == 0
  {
    if a % m == b % m {
      assert m * (a / m) - m * (b / m) == m * (a / m - b / m);
      Unique(a - b, m, a / m - b / m, 0);
    } else if (a - b) % m == 0 {
      assert m * (b / m) + m * ((a - b) / m) == m * (b / m + (a - b) / m);
      Unique(a, m, b / m + (a - b) / m, b % m);
    }
  }

  /** Factors with an inverse modulo `m` may be cancelled. */
  lemma Cancel(u: int, y: int, m: int, inverse: int, k: int)
    requires m > 0 && inverse * u == m * k + 1 && (u * y) % m == 0
    ensures y % m == 0
  {
    var z := (u * y) / m;
    calc {
      y;
      (m * k + 1) * y - m * k * y;
      inverse * u * y - m * k * y;
      inverse * (u * y) - m * k * y;
      inverse * (m * z) - m * k * y;
      m * (inverse * z - k * y);
    }
    Multiple(inverse * z - k * y, m);
  }

  lemma Negative(x: int, m: int)
    requires m > 0
    ensures x % m == 0 <==> -x % m == 0
  {
    Difference(0, x, m);
    Difference(0, -x, m);
    Unique(0, m, 0, 0);
  }

  /** Division of a natural number, in terms of multiples. */
  lemma Divide(n: nat, p: int)
    requires p > 0
    ensures n / p >= 0 && p * (n / p) <= n < p * (n / p) + p
  {
    assert n == p * (n / p) + n % p;
    assert p * (n / p + 1) > 0;
  }
}
