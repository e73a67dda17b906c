/** util/integer_division.h, with the truncating division of C++ and, for the fast forms, unsigned wrap-around. */
module IntegerDivision {

  /** The operator `/` of C++: rounds toward zero. */
  function Truncated(a: int, b: int): (q: int)
    requires b != 0
    ensures (a >= 0 ==> 0 <= a - b * q) && (a <= 0 ==> a - b * q <= 0)
    ensures b > 0 ==> -b < a - b * q < b
    ensures b < 0 ==> b < a - b * q < -b
  {
    if a >= 0 then a / b else -((-a) / b)
  }

  function DivideRoundingUp(num: int, denom: int): int
    requires denom != 0
  {
    var (n, d) := if denom < 0 then (-num, -denom) else (num, denom);
    if n < 0 then Truncated(n, d) else Truncated(n + d - 1, d)
  }

  function DivideRoundingNearest(num: int, denom: int): int
    requires denom != 0
  {
    var (n, d) := if denom < 0 then (-num, -denom) else (num, denom);
    if n < 0 then Truncated(n - Truncated(d - 1, 2), d) else Truncated(n + Truncated(d, 2), d)
  }

  /** An unsigned value of `modulus` values. */
  function Wrapped(x: int, modulus: int): int
    requires modulus > 0
  {
    x % modulus
  }

  /** The conversion of an unsigned value back to the signed type. */
  function Signed(x: int, modulus: int): int
    requires modulus > 0
  {
    if 2 * x < modulus then x else x - modulus
  }

  /** The arguments are converted to the unsigned type; every operation wraps. */
  function DividePositivesRoundingUp(num: int, denom: int, modulus: int): int
    requires modulus > 0 && Wrapped(denom, modulus) != 0
  {
    var n, d := Wrapped(num, modulus), Wrapped(denom, modulus);
    Signed(Wrapped(Wrapped(n + d, modulus) - 1, modulus) / d, modulus)
  }

  function DividePositivesRoundingNearest(num: int, denom: int, modulus: int): int
    requires modulus > 0 && Wrapped(denom, modulus) != 0
  {
    var n, d := Wrapped(num, modulus), Wrapped(denom, modulus);
    Signed(Wrapped(n + d / 2, modulus) / d, modulus)
  }

  // ----- what they compute -----

  /** The quotient's ceiling: the least integer not below it. */
  ghost predicate IsCeiling(num: int, denom: int, r: int)
    requires denom != 0
  {
    var quotient := num as real / denom as real;
    (r - 1) as real < quotient <= r as real
  }

  /** The floor of the quotient plus one half. */
  ghost predicate IsNearest(num: int, denom: int, r: int)
    requires denom != 0
  {
    var raised := num as real / denom as real + 0.5;
    r as real <= raised < (r + 1) as real
  }

  /** Comparing a quotient with an integer is comparing products. */
  lemma QuotientAgainst(num: int, denom: int, k: real)
    requires denom > 0
    ensures num as real / denom as real <= k <==> num as real <= k * denom as real
    ensures num as real / denom as real < k <==> num as real < k * denom as real
  {
    var q := num as real / denom as real;
    assert q * denom as real == num as real;
    if q <= k {
      assert (k - q) * denom as real >= 0.0;
    } else {
      assert (q - k) * denom as real > 0.0;
    }
    if q < k {
      assert (k - q) * denom as real > 0.0;
    } else {
      assert (q - k) * denom as real >= 0.0;
    }
  }

  lemma NegateBoth(num: int, denom: int)
    requires denom != 0
    ensures num as real / denom as real == (-num) as real / (-denom) as real
  {
    var q := num as real / denom as real;
    assert q * denom as real == num as real;
    assert q * (-denom) as real == (-num) as real;
  }

  lemma CeilingByProducts(num: int, denom: int, r: int)
    requires denom > 0
    ensures IsCeiling(num, denom, r) <==> (r - 1) * denom < num <= r * denom
  {
    QuotientAgainst(num, denom, (r - 1) as real);
    QuotientAgainst(num, denom, r as real);
    assert (r - 1) as real * denom as real == ((r - 1) * denom) as real;
    assert r as real * denom as real == (r * denom) as real;
  }

  lemma NearestByProducts(num: int, denom: int, r: int)
    requires denom > 0
    ensures IsNearest(num, denom, r) <==> r * (2 * denom) <= 2 * num + denom < (r + 1) * (2 * denom)
  {
    var low, high := r as real - 0.5, r as real + 0.5;
    QuotientAgainst(num, denom, low);
    QuotientAgainst(num, denom, high);
    assert 2.0 * low * denom as real == (2 * r * denom - denom) as real;
    assert 2.0 * high * denom as real == (2 * r * denom + denom) as real;
    assert r * (2 * denom) == 2 * r * denom && (r + 1) * (2 * denom) == 2 * r * denom + 2 * denom;
  }

  /** DivideRoundingUp is the ceiling for every sign of its arguments, and nothing else is. */
  lemma RoundsUp(num: int, denom: int, r: int)
    requires denom != 0
    ensures r == DivideRoundingUp(num, denom) <==> IsCeiling(num, denom, r)
  {
    NegateBoth(num, denom);
    var (n, d) := if denom < 0 then (-num, -denom) else (num, denom);
    CeilingByProducts(n, d, r);
    var up := DivideRoundingUp(num, denom);
    UpByProducts(n, d);
    OneMultiple(n - 1, d, up - 1, r - 1);
  }

  lemma UpByProducts(n: int, d: int)
    requires d > 0
    ensures (DivideRoundingUp(n, d) - 1) * d < n <= DivideRoundingUp(n, d) * d
  {
    var q := DivideRoundingUp(n, d);
    assert (q - 1) * d == d * q - d;
  }

  /** At most one multiple of `d` starts the block of length `d` that holds `x`. */
  lemma OneMultiple(x: int, d: int, p: int, q: int)
    requires d > 0 && p * d <= x < (p + 1) * d
    ensures q * d <= x < (q + 1) * d <==> q == p
  {
    if q < p {
      assert (q + 1) * d <= p * d by { Grows(q + 1, p, d); }
    } else if q > p {
      assert (p + 1) * d <= q * d by { Grows(p + 1, q, d); }
    }
  }

  lemma Grows(a: int, b: int, d: int)
    requires a <= b && d > 0
    ensures a * d <= b * d
  {
    assert (b - a) * d >= 0;
    assert (b - a) * d == b * d - a * d;
  }

  /** DivideRoundingNearest rounds to the nearest integer, halves upward, and nothing else does. */
  lemma RoundsToNearest(num: int, denom: int, r: int)
    requires denom != 0
    ensures r == DivideRoundingNearest(num, denom) <==> IsNearest(num, denom, r)
  {
    NegateBoth(num, denom);
    var (n, d) := if denom < 0 then (-num, -denom) else (num, denom);
    NearestByProducts(n, d, r);
    NearByProducts(n, d);
    var near := DivideRoundingNearest(num, denom);
    OneMultiple(2 * n + d, 2 * d, near, r);
  }

  lemma NearByProducts(n: int, d: int)
    requires d > 0
    ensures var q := DivideRoundingNearest(n, d); q * (2 * d) <= 2 * n + d < (q + 1) * (2 * d)
  {
    var q := DivideRoundingNearest(n, d);
    Doubled(q, d);
    BetweenHalves(n, d, d * q);
  }

  lemma Doubled(q: int, d: int)
    ensures q * (2 * d) == 2 * (d * q)
    ensures (q + 1) * (2 * d) == 2 * (d * q) + 2 * d
  {
  }

  /** The same with the product given, so that only sums remain. */
  lemma BetweenHalves(n: int, d: int, product: int)
    requires d > 0 && product == d * DivideRoundingNearest(n, d)
    ensures 2 * product <= 2 * n + d < 2 * product + 2 * d
  {
    if n < 0 {
      var half := Truncated(d - 1, 2);
      assert d - 2 <= 2 * half <= d - 1;
      assert -d < n - half - product <= 0;
    } else {
      var half := Truncated(d, 2);
      assert d - 1 <= 2 * half <= d;
      assert 0 <= n + half - product < d;
    }
  }

  /** For non-negative values of the signed type the fast forms do not wrap and compute the same. */
  lemma PositivesAgree(num: int, denom: int, modulus: int)
    requires 0 <= 2 * num < modulus && 0 < 2 * denom < modulus
    ensures DividePositivesRoundingUp(num, denom, modulus) == DivideRoundingUp(num, denom)
    ensures DividePositivesRoundingNearest(num, denom, modulus) == DivideRoundingNearest(num, denom)
  {
    Same(num, modulus);
    Same(denom, modulus);
    Same(num + denom, modulus);
    Same(num + denom - 1, modulus);
    Same(num + denom / 2, modulus);
    var up, near := (num + denom - 1) / denom, (num + denom / 2) / denom;
    QuotientInRange(num, denom, denom - 1);
    QuotientInRange(num, denom, denom / 2);
  }

  lemma Same(x: int, modulus: int)
    requires 0 <= x < modulus
    ensures Wrapped(x, modulus) == x
  {
  }

  /** Adding less than the divisor keeps the quotient within the dividend. */
  lemma QuotientInRange(n: int, d: int, extra: int)
    requires 0 <= n && 0 < d && 0 <= extra < d
    ensures 0 <= (n + extra) / d <= n
  {
    var q := (n + extra) / d;
    assert q * d <= n + extra;
    assert n * d >= n by { if n > 0 { Grows(1, d, n); } }
    assert (n + 1) * d == n * d + d;
    if q > n {
      Grows(n + 1, q, d);
    }
  }
}
