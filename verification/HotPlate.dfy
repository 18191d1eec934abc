/**
 The wave buffer of the micro hot plate: how it is filled, scaled to an amplitude and played
 back.  Reals stand for the firmware's floats.
 */
module HotPlate {
  import opened Binary
  import opened Reals

  const TOP := 16383
  const MAX_ARRAY_SIZE := 12500

  // ----- Sample values -----

  /** How many samples belong to the first part of a wave. */
  function OnSize(size: nat, duty: nat): nat {
    size * duty / 100
  }

  /** The one number of whole samples that the duty cycle gives, in percent of the size. */
  lemma OnSizeExact(size: nat, duty: nat, n: nat)
    ensures OnSize(size, duty) == n <==> 100 * n <= size * duty < 100 * n + 100
  {
    var x := size * duty;
    Division(x, 100);
  }

  function Slope(on: nat): real
    requires on > 0
  {
    TOP as real / on as real
  }

  /** A sample of the rising part, and one j places into the falling part, before conversion to an integer. */
  function RiseAt(on: nat, i: nat): real
    requires on > 0
  {
    i as real * Slope(on)
  }

  function FallAt(on: nat, j: nat): real
    requires on > 0
  {
    TOP as real - j as real * Slope(on)
  }

  /** The raw triangle. */
  function TriangleAt(on: nat, i: nat): int
    requires on > 0
  {
    if i < on then RiseAt(on, i).Floor else FallAt(on, i - on).Floor
  }

  /** The firmware's amplitude is a whole number of volts, and its division by the gain of 7 drops the rest. */
  function MaxDacValue(amplitude: nat): real {
    (amplitude / 7) as real * (16383.0 / 3.3)
  }

  function Scaled(value: int, amplitude: nat): int {
    (value as real / 16383.0 * MaxDacValue(amplitude)).Floor
  }

  lemma TimesQuotient(i: nat, top: nat, on: nat)
    requires on > 0
    ensures i as real * (top as real / on as real) == (top * i) as real / on as real
  {
    var s, x := top as real / on as real, (top * i) as real / on as real;
    Quotient(top as real, on as real);
    Quotient((top * i) as real, on as real);
    RealProduct(top, i);
    assert i as real * s * on as real == i as real * (s * on as real);
    SameProduct(i as real * s, x, on as real);
  }

  /** In whole numbers: the rising part is 16383*i div on. */
  lemma RiseIs(on: nat, i: nat)
    requires on > 0
    ensures RiseAt(on, i).Floor == TOP * i / on
  {
    TimesQuotient(i, TOP, on);
    FloorQuotient(TOP * i, on);
  }

  /** In whole numbers: the falling part is 16383*(on - j) div on, as long as it is not negative. */
  lemma FallIs(on: nat, j: nat)
    requires on > 0 && j <= on
    ensures FallAt(on, j) >= 0.0
    ensures FallAt(on, j).Floor == TOP * (on - j) / on
  {
    TimesQuotient(j, TOP, on);
    var k := TOP * (on - j);
    FloorQuotient(k, on);
    Difference(TOP * on, TOP * j, on, TOP);
    assert TOP * on - TOP * j == k;
    NonNegative(k, on);
  }

  lemma Difference(a: int, b: int, n: nat, q: int)
    requires n > 0 && a == q * n
    ensures q as real - b as real / n as real == (a - b) as real / n as real
  {
    var x, y := b as real / n as real, (a - b) as real / n as real;
    Quotient(b as real, n as real);
    Quotient((a - b) as real, n as real);
    RealProduct(q, n);
    assert (q as real - x) * n as real == q as real * n as real - x * n as real;
    SameProduct(q as real - x, y, n as real);
  }

  lemma NonNegative(k: nat, n: nat)
    requires n > 0
    ensures k as real / n as real >= 0.0
  {
  }

  // ----- The triangle -----

  lemma QuotientSteps(a: nat, b: nat, n: nat)
    requires n > 0 && b >= a + n
    ensures b / n >= a / n + 1
  {
    Division(a, n);
    Division(b, n);
    if b / n <= a / n {
      ProductOrder(b / n, a / n, n);
      assert false;
    }
  }

  lemma QuotientBelow(a: nat, n: nat, q: nat)
    requires n > 0 && a < n * q
    ensures a / n < q
  {
    Division(a, n);
    if a / n >= q {
      ProductOrder(q, a / n, n);
      assert false;
    }
  }

  /** The raw value in whole numbers, wherever the falling part stays above zero. */
  lemma TriangleIs(on: nat, i: nat)
    requires 0 < on && i <= 2 * on
    ensures TriangleAt(on, i) == if i < on then TOP * i / on else TOP * (2 * on - i) / on
  {
    if i < on {
      RiseIs(on, i);
    } else {
      FallIs(on, i - on);
    }
  }

  /**
   The raw triangle starts at 0, rises at every step up to sample `on`, stands at 16383 there,
   falls at every step after it, and stays within 0 to 16383.
   */
  lemma TriangleShape(on: nat, i: nat)
    requires 0 < on <= MAX_ARRAY_SIZE && i <= 2 * on
    ensures 0 <= TriangleAt(on, i) <= 16383
    ensures i == 0 ==> TriangleAt(on, i) == 0
    ensures i == on ==> TriangleAt(on, i) == 16383
    ensures i < on ==> TriangleAt(on, i) < TriangleAt(on, i + 1)
    ensures on <= i < 2 * on ==> TriangleAt(on, i) > TriangleAt(on, i + 1)
  {
    TriangleBounds(on, i);
    if i < 2 * on {
      TriangleSteps(on, i);
    }
  }

  lemma TriangleBounds(on: nat, i: nat)
    requires 0 < on <= MAX_ARRAY_SIZE && i <= 2 * on
    ensures 0 <= TriangleAt(on, i) <= TOP
    ensures i == 0 ==> TriangleAt(on, i) == 0
    ensures i == on ==> TriangleAt(on, i) == TOP
  {
    var m := if i < on then i else 2 * on - i;
    TriangleIs(on, i);
    if m == on {
      QuotientIs(TOP * on, on, TOP, 0);
    } else {
      QuotientBelow(TOP * m, on, TOP);
    }
    if i == 0 {
      QuotientIs(0, on, 0, 0);
    }
  }

  lemma TriangleSteps(on: nat, i: nat)
    requires 0 < on <= MAX_ARRAY_SIZE && i < 2 * on
    ensures i < on ==> TriangleAt(on, i) < TriangleAt(on, i + 1)
    ensures on <= i ==> TriangleAt(on, i) > TriangleAt(on, i + 1)
  {
    TriangleIs(on, i);
    TriangleIs(on, i + 1);
    if i < on {
      QuotientSteps(TOP * i, TOP * (i + 1), on);
    } else {
      QuotientSteps(TOP * (2 * on - i - 1), TOP * (2 * on - i), on);
    }
  }

  /** Every conversion to an unsigned integer is defined, that is, of a value above -1. */
  ghost predicate TriangleDefined(on: nat, size: nat)
    requires on > 0
  {
    forall j | 0 <= j < size - on :: FallAt(on, j) > -1.0
  }

  /** The triangle is defined exactly when it does not fall for more than one sample longer than it rises. */
  lemma TriangleDefinedExactly(on: nat, size: nat)
    requires 0 < on <= MAX_ARRAY_SIZE
    ensures TriangleDefined(on, size) <==> size <= 2 * on + 1
  {
    if size <= 2 * on + 1 {
      forall j | 0 <= j < size - on ensures FallAt(on, j) > -1.0 {
        if j <= on {
          FallIs(on, j);
        }
      }
    } else {
      BelowMinusOne(on);
    }
  }

  /** A duty cycle above 100 is refused; otherwise all conversions of a triangle are defined, if it has samples. */
  ghost predicate TriangleSound(size: nat, duty: nat) {
    duty <= 100 && size > 0 ==> OnSize(size, duty) > 0 && TriangleDefined(OnSize(size, duty), size)
  }

  lemma BelowMinusOne(on: nat)
    requires 0 < on <= MAX_ARRAY_SIZE
    ensures FallAt(on, on + 1) <= -1.0
  {
    Quotient(TOP as real, on as real);
    var s := Slope(on);
    assert (on as real + 1.0) * s == on as real * s + s;
    if s < 1.0 {
      Fraction(s, on as real);
      assert false;
    }
    assert FallAt(on, on + 1) == TOP as real - (on as real + 1.0) * s;
  }

  /** A duty cycle of at least one half is always enough. */
  lemma HalfDutySuffices(size: nat, duty: nat)
    requires 50 <= duty <= 100
    ensures size <= 2 * OnSize(size, duty) + 1 && OnSize(size, duty) <= size
    ensures size >= 2 ==> OnSize(size, duty) > 0
  {
    ProductOrder(50, duty, size);
    ProductOrder(duty, 100, size);
  }

  // ----- Scaling -----

  /** In whole numbers: 10 * value * (amplitude div 7) div 33. */
  lemma ScaledIs(value: nat, amplitude: nat)
    ensures Scaled(value, amplitude) == 10 * value * (amplitude / 7) / 33
  {
    var v, g := value as real, (amplitude / 7) as real;
    RealProduct(value, amplitude / 7);
    assert v / 16383.0 * (g * (16383.0 / 3.3)) == v * g * 10.0 / 33.0 by {
      ScaleFactor(v, g);
    }
    var k := 10 * (value * (amplitude / 7));
    assert k as real == 10.0 * (v * g);
    FloorQuotient(k, 33);
    assert 10 * value * (amplitude / 7) == k;
  }

  lemma ScaleFactor(v: real, g: real)
    ensures v / 16383.0 * (g * (16383.0 / 3.3)) == v * g * 10.0 / 33.0
  {
    var a := v / 16383.0;
    assert a * 16383.0 == v;
    var c := 16383.0 / 3.3;
    assert c == 16383.0 * (10.0 / 33.0);
    assert a * (g * c) == (a * g) * c;
    assert (a * g) * 16383.0 == (a * 16383.0) * g;
  }

  /** Scaling keeps order and zero. */
  lemma ScaledMonotone(v: nat, w: nat, amplitude: nat)
    requires v <= w
    ensures 0 <= Scaled(v, amplitude) <= Scaled(w, amplitude)
    ensures Scaled(0, amplitude) == 0
  {
    ScaledIs(v, amplitude);
    ScaledIs(w, amplitude);
    ScaledIs(0, amplitude);
    ProductOrder(v, w, amplitude / 7);
  }

  /** Scaled samples of every wave stay within 14 bits exactly for amplitudes below 28. */
  lemma ScaledInRange(amplitude: nat)
    ensures (forall v: nat | v <= 16383 :: Scaled(v, amplitude) <= 16383) <==> amplitude < 28
  {
    if amplitude < 28 {
      forall v: nat | v <= TOP ensures Scaled(v, amplitude) <= TOP {
        ScaledIs(v, amplitude);
        ProductOrder(amplitude / 7, 3, v);
      }
    } else {
      ScaledIs(TOP, amplitude);
      ProductOrder(4, amplitude / 7, TOP);
      assert Scaled(TOP, amplitude) > TOP;
    }
  }

  /** The scaled triangle rises, then falls, without leaving 14 bits for amplitudes below 28. */
  lemma ScaledTriangle(on: nat, i: nat, amplitude: nat)
    requires 0 < on <= MAX_ARRAY_SIZE && i < 2 * on && amplitude < 28
    ensures var at := j => if 0 < on && 0 <= j then Scaled(TriangleAt(on, j), amplitude) else 0;
            && 0 <= at(i) <= 16383
            && (i < on ==> at(i) <= at(i + 1))
            && (on <= i ==> at(i) >= at(i + 1))
  {
    TriangleShape(on, i);
    TriangleShape(on, i + 1);
    ScaledInRange(amplitude);
    ScaledMonotone(0, TriangleAt(on, i), amplitude);
    if i < on {
      ScaledMonotone(TriangleAt(on, i), TriangleAt(on, i + 1), amplitude);
    } else {
      ScaledMonotone(TriangleAt(on, i + 1), TriangleAt(on, i), amplitude);
    }
  }
}
