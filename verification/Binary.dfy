/** Bytes, words, binary digits, quotients and sequences: what the other modules share. */
module Binary {
  type byte = b: int | 0 <= b < 256
  type uint16 = w: int | 0 <= w < 65536

  /** The n low binary digits of x, least significant first. */
  function Digits(x: nat, n: nat): (d: seq<bool>)
    ensures |d| == n
  {
    if n == 0 then [] else [x % 2 == 1] + Digits(x / 2, n - 1)
  }

  function Pow2(n: nat): nat {
    if n == 0 then 1 else 2 * Pow2(n - 1)
  }

  lemma {:induction false} DigitsInjective(x: nat, y: nat, n: nat)
    requires x < Pow2(n) && y < Pow2(n)
    requires Digits(x, n) == Digits(y, n)
    ensures x == y
  {
    if n == 0 {
    } else {
      assert Digits(x, n)[0] == Digits(y, n)[0];
      assert Digits(x, n)[1..] == Digits(x / 2, n - 1);
      assert Digits(y, n)[1..] == Digits(y / 2, n - 1);
      DigitsInjective(x / 2, y / 2, n - 1);
    }
  }

  /** Digit i of x is x / 2^i mod 2, which is what masking with 1 << i tests. */
  lemma {:induction false} DigitAt(x: nat, n: nat, i: nat)
    requires i < n
    ensures Pow2(i) > 0
    ensures Digits(x, n)[i] <==> x / Pow2(i) % 2 == 1
  {
    if i == 0 {
    } else {
      DigitAt(x / 2, n - 1, i - 1);
      HalfThenDivide(x, Pow2(i - 1));
    }
  }

  lemma HalfThenDivide(x: nat, p: nat)
    requires p > 0
    ensures x / 2 / p == x / (2 * p)
  {
    var d := 2 * p;
    Division(x, d);
    HalfQuotient(x, p, d, x / d, x % d);
  }

  lemma HalfQuotient(x: nat, p: nat, d: nat, q: nat, r: nat)
    requires p > 0 && d == 2 * p && x == d * q + r && r < d
    ensures x / 2 / p == q
  {
    assert d * q == 2 * (p * q);
    QuotientIs(x / 2, p, q, r / 2);
  }

  lemma QuotientIs(x: nat, p: nat, q: nat, r: nat)
    requires x == p * q + r && r < p
    ensures x / p == q && x % p == r
  {
    var t, m := x / p, x % p;
    assert x == p * t + m;
    var d := t - q;
    assert p * d == r - m by {
      assert p * d == p * t - p * q;
    }
    Multiple(p, d);
  }

  lemma Division(x: nat, n: nat)
    requires n > 0
    ensures x == n * (x / n) + x % n && x % n < n && x / n >= 0
  {
  }

  lemma Multiple(p: int, d: int)
    requires p > 0
    ensures d >= 1 ==> p * d >= p
    ensures d <= -1 ==> p * d <= -p
  {
  }

  lemma NextModulo(q: nat, n: nat)
    requires n > 0
    ensures (q + 1) % n == (q % n + 1) % n
  {
    var k, r := q / n, q % n;
    assert q + 1 == n * k + (r + 1);
    if r + 1 < n {
      QuotientIs(q + 1, n, k, r + 1);
      QuotientIs(r + 1, n, 0, r + 1);
    } else {
      assert n * k + n == n * (k + 1);
      QuotientIs(q + 1, n, k + 1, 0);
      QuotientIs(n, n, 1, 0);
    }
  }

  lemma ProductOrder(x: nat, y: nat, n: nat)
    requires x <= y
    ensures n * x <= n * y
  {
    assert n * (y - x) >= 0;
  }

  lemma QuotientOrder(a: nat, b: nat, n: nat)
    requires a <= b && n > 0
    ensures a / n <= b / n
  {
    Division(a, n);
    Division(b, n);
    if a / n > b / n {
      ProductOrder(b / n + 1, a / n, n);
      assert false;
    }
  }

  /** How many of the flags are set. */
  function Count(flags: seq<bool>): (n: nat)
    ensures n <= |flags|
  {
    if flags == [] then 0 else Count(flags[..|flags| - 1]) + if flags[|flags| - 1] then 1 else 0
  }

  lemma {:induction false} CountNone(flags: seq<bool>)
    requires forall i | 0 <= i < |flags| :: !flags[i]
    ensures Count(flags) == 0
  {
    if flags == [] {
    } else {
      CountNone(flags[..|flags| - 1]);
    }
  }

  lemma {:induction false} CountOne(flags: seq<bool>, k: nat)
    requires k < |flags| && forall i | 0 <= i < |flags| :: flags[i] <==> i == k
    ensures Count(flags) == 1
  {
    var n := |flags| - 1;
    if k == n {
      CountNone(flags[..n]);
    } else {
      CountOne(flags[..n], k);
    }
  }

  lemma {:induction false} ZeroDigits(n: nat)
    ensures forall i | 0 <= i < n :: !Digits(0, n)[i]
  {
    if n == 0 {
    } else {
      ZeroDigits(n - 1);
    }
  }

  lemma {:induction false} PowerDigits(k: nat, n: nat)
    requires k < n
    ensures forall i | 0 <= i < n :: Digits(Pow2(k), n)[i] <==> i == k
  {
    if k == 0 {
      ZeroDigits(n - 1);
    } else {
      PowerDigits(k - 1, n - 1);
    }
  }

  lemma Assoc<T>(a: seq<T>, b: seq<T>, c: seq<T>)
    ensures a + (b + c) == a + b + c
  {
  }

  lemma Unit<T>(a: seq<T>)
    ensures [] + a == a
  {
  }

  lemma Inside<T>(a: seq<T>, b: seq<T>, c: seq<T>, k: nat)
    requires k < |b|
    ensures (a + b + c)[|a| + k] == b[k]
  {
  }
}
