/** Facts about real products, quotients and their whole parts. */
module Reals {
  import opened Binary

  lemma Fraction(f: real, w: real)
    requires 0.0 <= f < 1.0 && w > 0.0
    ensures 0.0 <= f * w < w
  {
  }

  lemma Grows(a: real, b: real, n: real)
    requires n > 0.0 && a <= b
    ensures a * n <= b * n
  {
    assert (b - a) * n == b * n - a * n;
  }

  lemma GrowsStrictly(a: real, b: real, n: real)
    requires n > 0.0 && a < b
    ensures a * n < b * n
  {
    assert (b - a) * n == b * n - a * n;
  }

  lemma SameProduct(a: real, b: real, n: real)
    requires n > 0.0 && a * n == b * n
    ensures a == b
  {
    if a < b {
      GrowsStrictly(a, b, n);
      assert false;
    } else if b < a {
      GrowsStrictly(b, a, n);
      assert false;
    }
  }

  lemma Quotient(x: real, w: real)
    requires w > 0.0
    ensures x / w * w == x
  {
  }

  lemma RealProduct(d: int, p: int)
    ensures d as real * p as real == (d * p) as real
  {
  }

  lemma Between(x: real, n: real, q: real, k: real)
    requires n > 0.0 && x * n == k && n * q <= k < n * q + n
    ensures q <= x < q + 1.0
  {
    if x >= q + 1.0 {
      Grows(q + 1.0, x, n);
      assert false;
    }
    if x < q {
      GrowsStrictly(x, q, n);
      assert false;
    }
  }

  /** A quotient x of s and m that lies within 2 above a. */
  lemma QuotientNear(x: real, m: real, s: real, a: real, am: real)
    requires m > 0.0 && x * m == s && a * m == am
    requires am <= s < am + 2.0 * m
    ensures 0.0 <= x - a < 2.0
  {
    if x < a {
      GrowsStrictly(x, a, m);
      assert false;
    }
    if x >= a + 2.0 {
      Grows(a + 2.0, x, m);
      assert false;
    }
  }

  /** The whole part of a quotient of whole numbers. */
  lemma FloorQuotient(k: nat, n: nat)
    requires n > 0
    ensures (k as real / n as real).Floor == k / n
  {
    var x, q := k as real / n as real, k / n;
    Division(k, n);
    Quotient(k as real, n as real);
    RealProduct(n, q);
    Between(x, n as real, q as real, k as real);
  }
}
