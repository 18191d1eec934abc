/**
 The converter gain register: a real gain written out as a binary fraction, digit by digit
 from the whole part down to 2^-16.  Arithmetic is exact; every operation of the firmware on
 this path is a scaling by a power of two or a subtraction without rounding.
 */
module Gain {
  import opened Acquisition
  import opened Binary
  import opened Reals

  const DIGITS := 17

  /** The weight of digit j: 1 for j = 16, halved at every place below. */
  function Weight(j: nat): (w: real)
    requires j < DIGITS
    ensures w > 0.0
    decreases DIGITS - j
  {
    if j == DIGITS - 1 then 1.0 else Weight(j + 1) / 2.0
  }

  lemma PowersPositive(n: nat)
    ensures Pow2(n) > 0
  {
    if n == 0 {
    } else {
      PowersPositive(n - 1);
    }
  }

  /** The weight as the firmware writes it. */
  lemma {:induction false} WeightIs(j: nat)
    requires j < DIGITS
    ensures Pow2(16 - j) > 0 && Weight(j) == 1.0 / Pow2(16 - j) as real
    decreases DIGITS - j
  {
    PowersPositive(16 - j);
    if j == DIGITS - 1 {
    } else {
      WeightIs(j + 1);
      assert Pow2(16 - j) == 2 * Pow2(15 - j);
      Halves(Pow2(15 - j) as real);
    }
  }

  lemma Halves(p: real)
    requires p > 0.0
    ensures 1.0 / p / 2.0 == 1.0 / (2.0 * p)
  {
  }

  /** What digit d is worth at weight w, and the same as a whole number of 2^-16, at p of them. */
  function Part(d: nat, w: real): real {
    d as real * w
  }

  function Units(d: nat, p: nat): nat {
    d * p
  }

  /** What the digits from place i on are worth. */
  function Worth(digits: seq<nat>, i: nat): real
    requires |digits| == DIGITS && i <= DIGITS
    decreases DIGITS - i
  {
    if i == DIGITS then 0.0 else Part(digits[i], Weight(i)) + Worth(digits, i + 1)
  }

  /** The same digits as a whole number. */
  function Whole(digits: seq<nat>, i: nat): nat
    requires |digits| == DIGITS && i <= DIGITS
    decreases DIGITS - i
  {
    if i == DIGITS then 0 else Units(digits[i], Pow2(i)) + Whole(digits, i + 1)
  }

  lemma TopPower()
    ensures Pow2(16) == 65536
  {
    assert Pow2(4) == 16;
    assert Pow2(8) == 256;
    assert Pow2(12) == 4096;
  }

  lemma {:induction false} WeightScaled(j: nat)
    requires j < DIGITS
    ensures Weight(j) * 65536.0 == Pow2(j) as real
    decreases DIGITS - j
  {
    if j == DIGITS - 1 {
      TopPower();
    } else {
      WeightScaled(j + 1);
    }
  }

  lemma Regroup(d: real, w: real, p: real)
    requires w * 65536.0 == p
    ensures d * w * 65536.0 == d * p
  {
    assert d * w * 65536.0 == d * (w * 65536.0);
  }

  lemma PartScaled(d: nat, w: real, p: nat)
    requires w * 65536.0 == p as real
    ensures Part(d, w) * 65536.0 == Units(d, p) as real
  {
    Regroup(d as real, w, p as real);
    RealProduct(d, p);
  }

  lemma {:induction false} WorthScaled(digits: seq<nat>, i: nat)
    requires |digits| == DIGITS && i <= DIGITS
    ensures Worth(digits, i) * 65536.0 == Whole(digits, i) as real
    decreases DIGITS - i
  {
    if i == DIGITS {
    } else {
      WorthScaled(digits, i + 1);
      WeightScaled(i);
      PartScaled(digits[i], Weight(i), Pow2(i));
    }
  }

  lemma {:induction false} WorthLocal(a: seq<nat>, b: seq<nat>, i: nat)
    requires |a| == |b| == DIGITS && i <= DIGITS && a[i..] == b[i..]
    ensures Worth(a, i) == Worth(b, i)
    decreases DIGITS - i
  {
    if i == DIGITS {
    } else {
      assert a[i] == a[i..][0] && b[i] == b[i..][0];
      assert a[i + 1..] == a[i..][1..] && b[i + 1..] == b[i..][1..];
      WorthLocal(a, b, i + 1);
    }
  }

  /** The digit at weight w: the largest whole multiple of it. */
  function Digit(rest: real, w: real): (d: nat)
    requires w > 0.0 && rest >= 0.0
  {
    assert rest / w >= 0.0;
    (rest / w).Floor
  }

  lemma DigitOf(q: real, d: real, w: real, rest: real, dw: real)
    requires w > 0.0 && q * w == rest && 0.0 <= q - d < 1.0 && dw == d * w
    ensures 0.0 <= rest - dw < w
    ensures rest < 2.0 * w ==> d < 2.0
  {
    var f := q - d;
    Fraction(f, w);
    assert f * w == rest - dw;
    if d >= 2.0 {
      Grows(2.0, q, w);
    }
  }

  /** Taking a digit leaves less than its weight; from less than twice the weight the digit is 0 or 1. */
  lemma DigitStep(rest: real, w: real)
    requires w > 0.0 && rest >= 0.0
    ensures 0.0 <= rest - Part(Digit(rest, w), w) < w
    ensures rest < 2.0 * w ==> Digit(rest, w) <= 1
  {
    var d := Digit(rest, w) as real;
    Quotient(rest, w);
    DigitOf(rest / w, d, w, rest, d * w);
  }

  /** The digits from place i on, and the rest that is still to be written out. */
  ghost predicate Expanded(gain: real, rest: real, digits: seq<nat>, i: nat) {
    && |digits| == DIGITS && i <= DIGITS
    && gain == rest + Worth(digits, i)
    && 0.0 <= rest < (if i == DIGITS then 4294967296.0 else Weight(i))
    && forall j | i <= j < DIGITS - 1 :: digits[j] <= 1
  }

  lemma ExpandStep(gain: real, rest: real, digits: seq<nat>, i: nat, digits': seq<nat>)
    requires 0 < i && Expanded(gain, rest, digits, i)
    requires |digits'| == DIGITS && digits' == digits[i - 1 := digits'[i - 1]]
    requires 0.0 <= rest - Part(digits'[i - 1], Weight(i - 1)) < Weight(i - 1)
    requires rest < 2.0 * Weight(i - 1) ==> digits'[i - 1] <= 1
    ensures Expanded(gain, rest - Part(digits'[i - 1], Weight(i - 1)), digits', i - 1)
  {
    WorthStep(digits, i, digits');
    if i < DIGITS {
      assert Weight(i) == 2.0 * Weight(i - 1);
    }
    assert forall j | i <= j < DIGITS - 1 :: digits'[j] == digits[j];
  }

  lemma WorthStep(digits: seq<nat>, i: nat, digits': seq<nat>)
    requires |digits| == |digits'| == DIGITS && 0 < i <= DIGITS && digits' == digits[i - 1 := digits'[i - 1]]
    ensures Worth(digits', i - 1) == Part(digits'[i - 1], Weight(i - 1)) + Worth(digits, i)
  {
    assert digits[i..] == digits'[i..];
    WorthLocal(digits, digits', i);
  }

  /** The first loop of LPADC_GetGainConvResult. */
  method ExpandGain(gain: real) returns (gcra: array<nat>)
    requires 0.0 <= gain < 4294967296.0
    ensures fresh(gcra) && gcra.Length == DIGITS
    ensures forall j | 0 <= j < DIGITS - 1 :: gcra[j] <= 1
    ensures (gain * 65536.0).Floor == Whole(gcra[..], 0)
  {
    var gainAdjustment := gain;
    gcra := new nat[DIGITS](_ => 0);
    var i := DIGITS;
    while i > 0
      invariant 0 <= i <= DIGITS
      invariant Expanded(gain, gainAdjustment, gcra[..], i)
    {
      ghost var before := gcra[..];
      WeightIs(i - 1);
      var weight := 1.0 / Pow2(16 - (i - 1)) as real;
      DigitStep(gainAdjustment, weight);
      var digit := Digit(gainAdjustment, weight);
      gcra[i - 1] := digit;
      ExpandStep(gain, gainAdjustment, before, i, gcra[..]);
      gainAdjustment := gainAdjustment - Part(digit, weight);
      i := i - 1;
    }
    ExpansionFloor(gain, gainAdjustment, gcra[..]);
  }

  /** The second loop of LPADC_GetGainConvResult. */
  method SumDigits(gcra: array<nat>) returns (gcalr: uint32)
    requires gcra.Length == DIGITS
    ensures gcalr == Whole(gcra[..], 0) % U32
  {
    gcalr := 0;
    var i := DIGITS;
    while i > 0
      invariant 0 <= i <= DIGITS
      invariant gcalr == Whole(gcra[..], i) % U32
    {
      WrappedSum(Whole(gcra[..], i), Units(gcra[i - 1], Pow2(i - 1)));
      gcalr := (gcalr + Units(gcra[i - 1], Pow2(i - 1)) % U32) % U32;
      i := i - 1;
    }
  }

  /** LPADC_GetGainConvResult: the 32-bit whole part of gain * 2^16. */
  method GetGainConvResult(gain: real) returns (result: uint32)
    requires 0.0 <= gain < 4294967296.0
    ensures result == (gain * 65536.0).Floor % U32
  {
    var gcra := ExpandGain(gain);
    result := SumDigits(gcra);
  }

  lemma ExpansionFloor(gain: real, rest: real, digits: seq<nat>)
    requires Expanded(gain, rest, digits, 0)
    ensures (gain * 65536.0).Floor == Whole(digits, 0)
  {
    WorthScaled(digits, 0);
    WeightScaled(0);
    FloorOf(gain * 65536.0, Whole(digits, 0), rest * 65536.0);
  }

  lemma FloorOf(x: real, whole: int, rest: real)
    requires x == whole as real + rest && 0.0 <= rest < 1.0
    ensures x.Floor == whole
  {
  }

  lemma WrappedSum(a: nat, b: nat)
    ensures (a % U32 + b % U32) % U32 == (b + a) % U32
  {
  }

  // ----- The calibration that feeds it -----

  /** The gain LPADC_FinishAutoCalibration derives from a 16-bit calibration value. */
  function CalibratedGain(gcc: uint16): real {
    131072.0 / (131072.0 - gcc as real)
  }

  /** The gain register for a calibration value. */
  function GainRegister(gcc: uint16): int {
    (CalibratedGain(gcc) * 65536.0).Floor
  }

  /** The register holds 2^33 div (2^17 - GCC). */
  lemma GainRegisterIs(gcc: uint16)
    ensures GainRegister(gcc) == 8589934592 / (131072 - gcc)
  {
    var n := 131072 - gcc;
    assert CalibratedGain(gcc) * 65536.0 == 8589934592.0 / n as real;
    FloorQuotient(8589934592, n);
  }

  lemma QuotientAntitone(k: nat, m: nat, n: nat)
    requires 0 < m <= n
    ensures k / n <= k / m
  {
    Division(k, m);
    Division(k, n);
    var a, b := k / n, k / m;
    assert m * (b + 1) == m * b + m;
    if a > b {
      ProductOrder(m, n, a);
      ProductOrder(b + 1, a, m);
      assert false;
    }
  }

  /** The register rises with the calibration value and always lies between 1 and 2 in units of 2^-16. */
  lemma GainRegisterMonotone(a: uint16, b: uint16)
    requires a <= b
    ensures 65536 <= GainRegister(a) <= GainRegister(b) < 131072
  {
    GainRegisterIs(a);
    GainRegisterIs(b);
    QuotientAntitone(8589934592, 131072 - b, 131072 - a);
    QuotientAntitone(8589934592, 131072 - a, 131072);
    QuotientAntitone(8589934592, 65537, 131072 - b);
  }

  /** The gain part of LPADC_FinishAutoCalibration. */
  method FinishAutoCalibration(gcc: uint16) returns (gcr: uint32)
    ensures gcr == 8589934592 / (131072 - gcc)
    ensures 65536 <= gcr < 131072
  {
    GainRegisterIs(gcc);
    GainRegisterMonotone(gcc, gcc);
    GainPositive(gcc);
    gcr := GetGainConvResult(131072.0 / (131072.0 - gcc as real));
  }

  lemma GainPositive(gcc: uint16)
    ensures 0.0 <= CalibratedGain(gcc) < 4294967296.0
  {
    var x := 131072.0 - gcc as real;
    Quotient(131072.0, x);
    QuotientNear(CalibratedGain(gcc), x, 131072.0, 0.0, 0.0);
  }
}
