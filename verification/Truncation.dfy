/** How the integer averages of current and resistance relate to the exact values. */
module Truncation {
  import opened Acquisition
  import opened Binary
  import opened Parameters
  import opened Reals
  import opened Sweeps
  import opened Wrappers

  function CurrentSum(sweep: seq<Close>): nat {
    if sweep == [] then 0 else CurrentSum(sweep[..|sweep| - 1]) + sweep[|sweep| - 1].current
  }

  lemma {:induction false} WindowTruncation(sweep: seq<Close>)
    ensures AVERAGE_COUNT * CurrentTotal(sweep) <= CurrentSum(sweep)
    ensures CurrentSum(sweep) <= AVERAGE_COUNT * CurrentTotal(sweep) + (AVERAGE_COUNT - 1) * |sweep|
    ensures CurrentTotal(sweep) <= |sweep| * (U32 / AVERAGE_COUNT)
  {
    if sweep == [] {
    } else {
      WindowTruncation(sweep[..|sweep| - 1]);
    }
  }

  /** The exact mean current of the windows of a sweep. */
  function MeanCurrent(sweep: seq<Close>): real
    requires sweep != []
  {
    CurrentSum(sweep) as real / AVERAGE_COUNT as real / |sweep| as real
  }

  /** The current a sweep reports when the running total stood at `base` as it began. */
  function ReportedCurrent(sweep: seq<Close>, base: nat): nat
    requires sweep != []
  {
    Averaged((base + CurrentTotal(sweep)) % U32, |sweep|)
  }

  /** The reported current lies below the exact mean, by less than 2. */
  ghost predicate Faithful(sweep: seq<Close>, base: nat)
    requires sweep != []
  {
    0.0 <= MeanCurrent(sweep) - ReportedCurrent(sweep, base) as real < 2.0
  }

  /** A sweep of at most eight strips that starts with an empty total never overflows and reports faithfully. */
  lemma NestedTruncation(sweep: seq<Close>)
    requires 0 < |sweep| <= STRIP_COUNT
    ensures CurrentTotal(sweep) < U32
    ensures Faithful(sweep, 0)
  {
    WindowTruncation(sweep);
    assert (0 + CurrentTotal(sweep)) % U32 == CurrentTotal(sweep);
    FloorOfFloors(CurrentSum(sweep), CurrentTotal(sweep), |sweep|);
  }

  lemma FloorOfFloors(sum: nat, total: nat, n: nat)
    requires n > 0 && 30 * total <= sum <= 30 * total + 29 * n
    ensures 0.0 <= sum as real / 30.0 / n as real - Averaged(total, n) as real < 2.0
  {
    var avg := Averaged(total, n);
    Division(total, n);
    MeanAbove(sum, n, avg, sum - 30 * (n * avg));
  }

  lemma MeanAbove(sum: nat, n: nat, avg: nat, rest: nat)
    requires n > 0 && sum == 30 * (n * avg) + rest && rest < 60 * n
    ensures 0.0 <= sum as real / 30.0 / n as real - avg as real < 2.0
  {
    var s, whole := sum as real / 30.0, n * avg;
    Quotient(s, n as real);
    RealProduct(n, avg);
    MeanNear(s / n as real, n, s, avg, whole, sum, rest);
  }

  lemma MeanNear(x: real, n: nat, s: real, avg: nat, whole: nat, sum: nat, rest: nat)
    requires n > 0 && x * n as real == s && s == sum as real / 30.0
    requires avg as real * n as real == whole as real
    requires sum == 30 * whole + rest && rest < 60 * n
    ensures 0.0 <= x - avg as real < 2.0
  {
    assert sum as real == 30.0 * whole as real + rest as real;
    QuotientNear(x, n as real, s, avg as real, whole as real);
  }

  /** The firmware's expression, truncated, as an int where it has one. */
  lemma OhmsIs(voltage: nat, current: nat)
    requires current > 0
    ensures var r := (voltage as real / current as real * 120.0 * 75.0 + 0.5).Floor;
            Ohms(voltage, current) == if 0 <= r < INT_LIMIT then Some(r) else None
  {
    var v, c := voltage as real, current as real;
    OverCommon(v / c, v, c, (18000 * voltage + current) as real);
    FloorQuotient(18000 * voltage + current, 2 * current);
    Division(18000 * voltage + current, 2 * current);
  }

  lemma OverCommon(x: real, v: real, c: real, k: real)
    requires c > 0.0 && x == v / c && k == 18000.0 * v + c
    ensures x * 120.0 * 75.0 + 0.5 == k / (2.0 * c)
  {
    Quotient(v, c);
    Quotient(k, 2.0 * c);
    var y := x * 120.0 * 75.0 + 0.5;
    assert y * (2.0 * c) == 18000.0 * (x * c) + c;
    SameProduct(y, k / (2.0 * c), 2.0 * c);
  }

  /**
   With current, the reading is the whole number of ohms nearest to 9000 * voltage / current,
   the upper one of two equally near, and there is one exactly if that stays below 2^31 - 1/2.
   */
  lemma NearestOhm(voltage: nat, current: nat)
    requires current > 0
    ensures Ohms(voltage, current).Some? <==> 18000 * voltage < (2 * INT_LIMIT - 1) * current
    ensures Ohms(voltage, current).Some? ==>
              -(current as int) < 2 * (Ohms(voltage, current).value * current - 9000 * voltage) <= current
  {
    var r := Rounded(voltage, current);
    Division(18000 * voltage + current, 2 * current);
    RoundedBelow(18000 * voltage + current, current, r, INT_LIMIT);
    Doubled(r, current);
  }

  lemma RoundedBelow(x: nat, current: nat, r: nat, limit: nat)
    requires current > 0 && (2 * current) * r <= x < (2 * current) * r + 2 * current
    ensures r < limit <==> x < (2 * current) * limit
  {
    if r < limit {
      ProductOrder(r + 1, limit, 2 * current);
    } else {
      ProductOrder(limit, r, 2 * current);
    }
  }

  lemma Doubled(r: nat, current: nat)
    ensures (2 * current) * r == 2 * (r * current)
  {
  }
}
