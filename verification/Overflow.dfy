/**
 Which readings are ints.  A resistance is converted to a 32-bit int, and a reconfiguration keeps
 the running sums, so measurements that are cut off early pile up voltage for a later one.
 */
module Overflow {
  import opened Acquisition
  import opened Binary
  import opened Carryover
  import opened Parameters
  import opened Rounds
  import opened Strips
  import opened Sweeps
  import opened Truncation
  import opened Windows

  /** The largest averaged voltage that fits with every current. */
  const SAFE_VOLTAGE := 238609

  // ----- Runs of several measurements -----

  /** A reconfiguration that succeeds, and what happens until the next one. */
  datatype Measurement = Measurement(strips: StripFlags, events: seq<Event>)

  ghost predicate Regular(ms: seq<Measurement>) {
    forall m <- ms :: Count(m.strips) > 0 && Paced(m.events)
  }

  function After(s: State, ms: seq<Measurement>): State {
    if ms == [] then s else
      var m := ms[|ms| - 1];
      Run(Step(After(s, ms[..|ms| - 1]), Reconfigure(m.strips, true)), m.events)
  }

  /** What a sum holds at the end of a measurement of which k windows have closed, if it held `before` at its start. */
  lemma SumLeft(start: State, sum: uint32, v: seq<uint16>, adc: Converter, k: nat, before: nat)
    requires OpenSum(start, sum, v, adc, k) && Running(start, adc) <= before
    requires |v| <= First(k) + if k == 0 then AVERAGE_COUNT - 1 else AVERAGE_COUNT
    ensures sum <= if k == 0 then before + 65535 * (AVERAGE_COUNT - 1) else 65535 * AVERAGE_COUNT
  {
    SumBounded(v[First(k)..]);
    Shrinks(Residue(start, adc, k) + Sum(v[First(k)..]));
  }

  lemma MeasurementLeaves(s: State, strips: StripFlags, start: State, events: seq<Event>, adc: Converter, before: nat)
    requires Restarted(s, strips, start) && Paced(events) && Running(s, adc) <= before
    ensures !Run(start, events).faulted
    ensures Running(Run(start, events), adc) <= before + 65535 * (AVERAGE_COUNT - 1)
         || Running(Run(start, events), adc) <= 65535 * AVERAGE_COUNT
  {
    var k := |Closes(start, events)|;
    RestartedTurns(s, strips, start);
    PacedSteady(events, adc);
    RoundRobinFrom(start, strips, events);
    SumsFrom(start, strips, events, adc);
    SumLeft(start, Running(Run(start, events), adc), Converted(events, adc), adc, k, before);
  }

  // ----- Which readings fit -----

  lemma {:induction false} SafeVoltageFits(voltage: nat, current: nat)
    requires voltage <= SAFE_VOLTAGE && current > 0
    ensures Ohms(voltage, current).Some?
  {
    NearestOhm(voltage, current);
  }

  /** Every other voltage, and every smaller current, makes the conversion no better. */
  lemma OhmsMonotone(v: nat, c: nat, v': nat, c': nat)
    requires v <= v' && c >= c' > 0 && Ohms(v', c').Some?
    ensures Ohms(v, c).Some?
  {
    NearestOhm(v', c');
    NearestOhm(v, c);
  }

  lemma VoltageBounded(s: State, c: Close, v: seq<uint16>, k: nat)
    requires WindowSum(s, v, c, VoltageAdc, k)
    ensures c.voltage / AVERAGE_COUNT <= if k == 0 then FullVoltage(s) else 65535
  {
    ShareSize(v, k);
    SumBounded(Share(v, k));
    Shrinks(Residue(s, VoltageAdc, k) + Sum(Share(v, k)));
  }

  /** The averaged voltage of window k: full scale at most, on top of the residue in window 0. */
  lemma WindowVoltage(s: State, strips: StripFlags, start: State, events: seq<Event>, k: nat)
    requires Restarted(s, strips, start) && Paced(events) && k < |Closes(start, events)|
    ensures Closes(start, events)[k].voltage / AVERAGE_COUNT <= if k == 0 then FullVoltage(s) else 65535
  {
    WindowComposition(s, strips, start, events, VoltageAdc, k);
    VoltageBounded(s, Closes(start, events)[k], Converted(events, VoltageAdc), k);
  }

  /** The averaged voltage of a first window with full-scale conversions only. */
  function FullVoltage(s: State): nat {
    (s.voltageSum + 65535 * (AVERAGE_COUNT - 1)) / AVERAGE_COUNT
  }

  /** The averaged current a complete sweep reports. */
  function SweepCurrent(sweep: seq<Close>, base: nat): nat
    requires sweep != []
  {
    Averaged((base + CurrentTotal(sweep)) % U32, |sweep|)
  }

  /** A complete sweep has an int for every strip, unless its averaged current is zero. */
  ghost predicate Converts(sweep: seq<Close>, base: nat)
    requires sweep != []
  {
    SweepCurrent(sweep, base) > 0 ==> forall p | 0 <= p < |sweep| :: Report(sweep, p, base).ohms.Some?
  }

  lemma SafeSweepConverts(sweep: seq<Close>, base: nat)
    requires sweep != [] && forall p | 0 <= p < |sweep| :: sweep[p].voltage / AVERAGE_COUNT <= SAFE_VOLTAGE
    ensures Converts(sweep, base)
  {
    if SweepCurrent(sweep, base) > 0 {
      forall p | 0 <= p < |sweep| ensures Report(sweep, p, base).ohms.Some? {
        SafeVoltageFits(sweep[p].voltage / AVERAGE_COUNT, SweepCurrent(sweep, base));
      }
    }
  }

  ghost predicate AllSafe(closes: seq<Close>) {
    forall c <- closes :: c.voltage / AVERAGE_COUNT <= SAFE_VOLTAGE
  }

  lemma WindowsSafe(s: State, strips: StripFlags, start: State, events: seq<Event>)
    requires Restarted(s, strips, start) && Paced(events) && FullVoltage(s) <= SAFE_VOLTAGE
    ensures AllSafe(Closes(start, events))
  {
    var closes := Closes(start, events);
    forall c <- closes ensures c.voltage / AVERAGE_COUNT <= SAFE_VOLTAGE {
      var k :| 0 <= k < |closes| && closes[k] == c;
      WindowVoltage(s, strips, start, events, k);
    }
  }

  lemma {:induction false} SweepsConvert(closes: seq<Close>, n: nat, i: nat, base: nat)
    requires AllSafe(closes) && n > 0 && i < |Grouped(closes, n).done|
    ensures Grouped(closes, n).done[i] != [] && Converts(Grouped(closes, n).done[i], base)
  {
    var sweep := Grouped(closes, n).done[i];
    GroupedShape(closes, n);
    forall p | 0 <= p < |sweep| ensures sweep[p].voltage / AVERAGE_COUNT <= SAFE_VOLTAGE {
      GroupedMember(closes, n, i, p);
    }
    SafeSweepConverts(sweep, base);
  }

  /** A reading has no int only where the averaged current of the last complete sweep is zero. */
  ghost predicate OnlyZeroCurrent(s: State, done: seq<seq<Close>>, strips: StripFlags, base: nat, c: Channel) {
    s.readings[c].ohms.None?
    <==> && strips[c] && done != [] && done[|done| - 1] != []
         && SweepCurrent(done[|done| - 1], if |done| == 1 then base else 0) == 0
  }

  lemma ReportedConverts(s: State, done: seq<seq<Close>>, strips: StripFlags, base: nat, c: Channel)
    requires Blank(strips, s.readings) && (done == [] ==> s.readings == NoReadings())
    requires done != [] ==>
               var b := if |done| == 1 then base else 0;
               && done[|done| - 1] != [] && Reported(strips, s.readings, done[|done| - 1], b)
               && Converts(done[|done| - 1], b)
    ensures OnlyZeroCurrent(s, done, strips, base, c)
  {
    if done != [] && strips[c] {
      ActiveListed(strips);
      var p :| 0 <= p < |ActiveList(strips)| && ActiveList(strips)[p] == c;
      assert done[|done| - 1][p].channel == c;
    }
  }

  lemma {:induction false} ReadingsConvert(s: State, strips: StripFlags, start: State, events: seq<Event>, c: Channel)
    requires Restarted(s, strips, start) && Paced(events) && FullVoltage(s) <= SAFE_VOLTAGE
    ensures OnlyZeroCurrent(Run(start, events), Grouped(Closes(start, events), Count(strips)).done, strips, s.total, c)
  {
    PacedSteady(events, VoltageAdc);
    SweepReport(s, strips, start, events);
    WindowsSafe(s, strips, start, events);
    SafeReadings(Run(start, events), Closes(start, events), strips, s.total, c);
  }

  lemma {:induction false} SafeReadings(s: State, closes: seq<Close>, strips: StripFlags, base: nat, c: Channel)
    requires AllSafe(closes) && Count(strips) > 0 && Blank(strips, s.readings)
    requires var done := Grouped(closes, Count(strips)).done;
             && (done == [] ==> s.readings == NoReadings())
             && (done != [] ==> Reported(strips, s.readings, done[|done| - 1], if |done| == 1 then base else 0))
    ensures OnlyZeroCurrent(s, Grouped(closes, Count(strips)).done, strips, base, c)
  {
    var done := Grouped(closes, Count(strips)).done;
    if done != [] {
      SweepsConvert(closes, Count(strips), |done| - 1, if |done| == 1 then base else 0);
    }
    ReportedConverts(s, done, strips, base, c);
  }

  /**
   In each of the first three measurements from power-up, every reading is an int at every
   moment, except where the averaged current of the last complete sweep is zero.
   */
  lemma {:induction false} EarlyReadingsConvert(modbus: bool, ms: seq<Measurement>, strips: StripFlags, start: State,
                                                events: seq<Event>, c: Channel)
    requires Regular(ms) && |ms| <= 2 && Paced(events)
    requires Restarted(After(Boot(modbus), ms), strips, start)
    ensures OnlyZeroCurrent(Run(start, events), Grouped(Closes(start, events), Count(strips)).done, strips,
                            After(Boot(modbus), ms).total, c)
  {
    MeasurementsModest(modbus, ms);
    ReadingsConvert(After(Boot(modbus), ms), strips, start, events, c);
  }

  // ----- The first sweep of any measurement -----

  /** Room in the sums for one more sweep. */
  predicate Spacious(s: State) {
    && s.voltageSum + 65535 * AVERAGE_COUNT < U32 && s.currentSum + 65535 * AVERAGE_COUNT < U32
    && s.total + s.currentSum / AVERAGE_COUNT + 65536 * STRIP_COUNT < U32
  }

  /** The least current other than zero that a first sweep over n strips can report. */
  function LeastCurrent(s: State, n: nat): (c: nat)
    requires n > 0
    ensures c > 0
  {
    var c := (s.total + s.currentSum / AVERAGE_COUNT) / n;
    if c == 0 then 1 else c
  }

  ghost predicate FirstConverts(start: State, n: nat, events: seq<Event>)
    requires n > 0
  {
    var done := Grouped(Closes(start, events), n).done;
    done != [] ==> done[0] != [] && Converts(done[0], start.total)
  }

  /** What the windows of a paced measurement can have consumed. */
  ghost predicate WithinRange(s: State, c: Close, k: nat) {
    if k == 0 then c.voltage / AVERAGE_COUNT <= FullVoltage(s)
                   && s.currentSum <= c.current <= s.currentSum + 65535 * AVERAGE_COUNT
    else c.voltage / AVERAGE_COUNT <= 65535 && c.current <= 65535 * AVERAGE_COUNT
  }

  lemma CurrentBounded(s: State, c: Close, v: seq<uint16>, k: nat)
    requires Spacious(s)
    requires WindowSum(s, v, c, CurrentAdc, k)
    ensures if k == 0 then s.currentSum <= c.current <= s.currentSum + 65535 * AVERAGE_COUNT
            else c.current <= 65535 * AVERAGE_COUNT
  {
    ShareSize(v, k);
    SumBounded(Share(v, k));
  }

  lemma WindowWithin(s: State, strips: StripFlags, start: State, events: seq<Event>, k: nat)
    requires Restarted(s, strips, start) && Paced(events) && Spacious(s) && k < |Closes(start, events)|
    ensures WithinRange(s, Closes(start, events)[k], k)
  {
    WindowVoltage(s, strips, start, events, k);
    WindowComposition(s, strips, start, events, CurrentAdc, k);
    CurrentBounded(s, Closes(start, events)[k], Converted(events, CurrentAdc), k);
  }

  lemma {:induction false} TotalWithin(s: State, sweep: seq<Close>)
    requires sweep != [] && forall p | 0 <= p < |sweep| :: WithinRange(s, sweep[p], p)
    ensures s.currentSum / AVERAGE_COUNT <= CurrentTotal(sweep) <= s.currentSum / AVERAGE_COUNT + 65536 * |sweep|
  {
    var front := sweep[..|sweep| - 1];
    if front == [] {
      assert WithinRange(s, sweep[0], 0);
    } else {
      assert WithinRange(s, sweep[|sweep| - 1], |sweep| - 1);
      forall p | 0 <= p < |front| ensures WithinRange(s, front[p], p) {
        assert WithinRange(s, sweep[p], p);
      }
      TotalWithin(s, front);
    }
  }

  lemma SweepCurrentLeast(s: State, sweep: seq<Close>)
    requires Spacious(s) && 0 < |sweep| <= STRIP_COUNT
    requires s.currentSum / AVERAGE_COUNT <= CurrentTotal(sweep) <= s.currentSum / AVERAGE_COUNT + 65536 * |sweep|
    ensures SweepCurrent(sweep, s.total) > 0 ==> SweepCurrent(sweep, s.total) >= LeastCurrent(s, |sweep|)
  {
    assert (s.total + CurrentTotal(sweep)) % U32 == s.total + CurrentTotal(sweep);
    QuotientOrder(s.total + s.currentSum / AVERAGE_COUNT, s.total + CurrentTotal(sweep), |sweep|);
  }

  lemma {:induction false} WithinConverts(s: State, sweep: seq<Close>)
    requires Spacious(s) && 0 < |sweep| <= STRIP_COUNT && forall p | 0 <= p < |sweep| :: WithinRange(s, sweep[p], p)
    requires Ohms(FullVoltage(s), LeastCurrent(s, |sweep|)).Some?
    ensures Converts(sweep, s.total)
  {
    TotalWithin(s, sweep);
    SweepCurrentLeast(s, sweep);
    var current := SweepCurrent(sweep, s.total);
    if current > 0 {
      forall p | 0 <= p < |sweep| ensures Report(sweep, p, s.total).ohms.Some? {
        assert WithinRange(s, sweep[p], p);
        if p == 0 {
          OhmsMonotone(sweep[0].voltage / AVERAGE_COUNT, current, FullVoltage(s), LeastCurrent(s, |sweep|));
        } else {
          SafeVoltageFits(sweep[p].voltage / AVERAGE_COUNT, current);
        }
      }
    }
  }

  lemma {:induction false} FirstSweepConverts(s: State, strips: StripFlags, start: State, events: seq<Event>)
    requires Restarted(s, strips, start) && Paced(events) && Spacious(s)
    requires Ohms(FullVoltage(s), LeastCurrent(s, Count(strips))).Some?
    ensures FirstConverts(start, Count(strips), events)
  {
    var n, closes := Count(strips), Closes(start, events);
    RestartedTurns(s, strips, start);
    GroupedShape(closes, n);
    if Grouped(closes, n).done != [] {
      var sweep := Grouped(closes, n).done[0];
      forall p | 0 <= p < n ensures WithinRange(s, sweep[p], p) {
        GroupedAt(closes, n, 0, p);
        Cancels(n, p);
        WindowWithin(s, strips, start, events, p);
      }
      WithinConverts(s, sweep);
    }
  }

  // ----- A run whose first sweep does not convert -----

  lemma {:induction false} SumFullScale(values: seq<uint16>)
    requires forall i | 0 <= i < |values| :: values[i] == 65535
    ensures Sum(values) == 65535 * |values|
  {
    if values == [] {
    } else {
      SumFullScale(values[..|values| - 1]);
    }
  }

  lemma FullScaleWindow(s: State, c: Close, v: seq<uint16>)
    requires Spacious(s) && WindowSum(s, v, c, VoltageAdc, 0) && forall i | 0 <= i < |v| :: v[i] == 65535
    ensures c.voltage / AVERAGE_COUNT == FullVoltage(s)
  {
    ShareSize(v, 0);
    SumFullScale(Share(v, 0));
  }

  /** A first current that makes a sweep over n strips report the least current there is. */
  function Starting(s: State, n: nat): (x: uint16)
    requires Spacious(s) && 0 < n <= STRIP_COUNT
    ensures s.currentSum + x < U32
    ensures ((s.total + (s.currentSum + x) / AVERAGE_COUNT) % U32) / n == LeastCurrent(s, n)
  {
    var have := s.total + s.currentSum / AVERAGE_COUNT;
    var x := if have >= n then 0 else AVERAGE_COUNT * (n - have);
    StartingIs(s.total, s.currentSum, n, x);
    x
  }

  lemma StartingIs(total: nat, sum: nat, n: nat, x: nat)
    requires 0 < n <= STRIP_COUNT && total + sum / AVERAGE_COUNT + STRIP_COUNT < U32
    requires var have := total + sum / AVERAGE_COUNT;
             x == if have >= n then 0 else AVERAGE_COUNT * (n - have)
    ensures var have := total + sum / AVERAGE_COUNT;
            (total + (sum + x) / AVERAGE_COUNT) % U32 / n == if have / n == 0 then 1 else have / n
  {
    var have := total + sum / AVERAGE_COUNT;
    Division(have, n);
    if have >= n {
      QuotientOrder(n, have, n);
      QuotientIs(n, n, 1, 0);
    } else {
      QuotientIs(have, n, 0, have);
      QuotientIs(n, n, 1, 0);
      assert (sum + x) / AVERAGE_COUNT == sum / AVERAGE_COUNT + (n - have);
    }
  }

  lemma {:induction false} StartingFails(s: State, start: State, closes: seq<Close>, n: nat, events: seq<Event>)
    requires Spacious(s) && 0 < n <= STRIP_COUNT && start.total == s.total
    requires !Ohms(FullVoltage(s), LeastCurrent(s, n)).Some?
    requires closes == Closes(start, events) && |closes| == n && closes[0].voltage / AVERAGE_COUNT == FullVoltage(s)
    requires forall p | 0 <= p < n :: closes[p].current == if p == 0 then s.currentSum + Starting(s, n) else 0
    ensures !FirstConverts(start, n, events)
  {
    OneSweep(closes);
    FirstWindowOnly(closes);
    assert SweepCurrent(closes, s.total) == LeastCurrent(s, n);
    assert Report(closes, 0, s.total).ohms.None?;
  }

  lemma {:induction false} FullScaleFirst(s: State, strips: StripFlags, start: State, events: seq<Event>, k: nat)
    requires Restarted(s, strips, start) && Spacious(s) && Paced(events)
    requires Converted(events, VoltageAdc) == Level(65535, k) && |Closes(start, events)| > 0
    ensures Closes(start, events)[0].voltage / AVERAGE_COUNT == FullVoltage(s)
  {
    WindowComposition(s, strips, start, events, VoltageAdc, 0);
    FullScaleWindow(s, Closes(start, events)[0], Level(65535, k));
  }

  lemma {:induction false} FullScaleBeats(s: State, strips: StripFlags, start: State, x: uint16, k: nat)
    requires Restarted(s, strips, start) && Spacious(s) && s.currentSum + x < U32 && k > 0
    ensures var closes := Closes(start, Beats(65535, x, AVERAGE_COUNT * k));
            && |closes| == k && closes[0].voltage / AVERAGE_COUNT == FullVoltage(s)
            && forall p | 0 <= p < k :: closes[p].current == if p == 0 then s.currentSum + x else 0
  {
    BeatWindows(s, strips, start, 65535, x, k);
    BeatsPaced(65535, x, AVERAGE_COUNT * k);
    FullScaleFirst(s, strips, start, Beats(65535, x, AVERAGE_COUNT * k), AVERAGE_COUNT * k);
  }

  lemma {:induction false} FirstSweepFails(s: State, strips: StripFlags, start: State) returns (events: seq<Event>)
    requires Restarted(s, strips, start) && Spacious(s)
    requires !Ohms(FullVoltage(s), LeastCurrent(s, Count(strips))).Some?
    ensures Paced(events) && !FirstConverts(start, Count(strips), events)
  {
    var n := Count(strips);
    events := Beats(65535, Starting(s, n), AVERAGE_COUNT * n);
    BeatsPaced(65535, Starting(s, n), AVERAGE_COUNT * n);
    FullScaleBeats(s, strips, start, Starting(s, n), n);
    RestartedTurns(s, strips, start);
    StartingFails(s, start, Closes(start, events), n, events);
  }

  /**
   At any reconfiguration whose sums have room: in every paced continuation the first sweep has
   an int for every strip, unless its current is zero, if and only if full-scale voltage on top
   of the residue still converts at the least current the leftovers allow.
   */
  lemma {:induction false} FirstSweepConvertsExactly(s: State, strips: StripFlags, start: State)
    requires Restarted(s, strips, start) && Spacious(s)
    ensures (forall events | Paced(events) :: FirstConverts(start, Count(strips), events))
       <==> Ohms(FullVoltage(s), LeastCurrent(s, Count(strips))).Some?
  {
    if Ohms(FullVoltage(s), LeastCurrent(s, Count(strips))).Some? {
      forall events | Paced(events) ensures FirstConverts(start, Count(strips), events) {
        FirstSweepConverts(s, strips, start, events);
      }
    } else {
      var events := FirstSweepFails(s, strips, start);
    }
  }

  // ----- The sums always have room for a while -----

  /** What a measurement can add to the total, while the current sum is no larger than 60 measurements can make it. */
  const ADDED := 28_000_000
  const MEASUREMENTS := 60

  ghost predicate Modest(s: State, m: nat) {
    && !s.faulted && s.voltageSum <= 65535 * (29 * m + 1) && s.currentSum <= 65535 * (29 * m + 1)
    && s.total <= ADDED * m
  }

  lemma ModestSpacious(s: State, m: nat)
    requires Modest(s, m) && m <= MEASUREMENTS
    ensures Spacious(s) && Roomy(s)
  {
  }

  lemma {:induction false} TotalAdded(sweep: seq<Close>)
    requires forall c <- sweep :: c.current <= 4_000_000 * AVERAGE_COUNT
    ensures CurrentTotal(sweep) <= 4_000_000 * |sweep|
  {
    if sweep == [] {
    } else {
      assert sweep[|sweep| - 1] in sweep;
      TotalAdded(sweep[..|sweep| - 1]);
    }
  }

  lemma {:induction false} UnfinishedAdded(s: State, strips: StripFlags, start: State, events: seq<Event>)
    requires Restarted(s, strips, start) && Paced(events) && Spacious(s) && s.currentSum <= 65535 * (29 * MEASUREMENTS + 1)
    ensures CurrentTotal(Unfinished(start, strips, events)) <= ADDED
  {
    var closes, open := Closes(start, events), Unfinished(start, strips, events);
    GroupedShape(closes, Count(strips));
    forall c <- open ensures c.current <= 4_000_000 * AVERAGE_COUNT {
      var p :| 0 <= p < |open| && open[p] == c;
      OpenMember(closes, Count(strips), p);
      var k :| 0 <= k < |closes| && closes[k] == c;
      WindowWithin(s, strips, start, events, k);
    }
    TotalAdded(open);
  }

  lemma OpenMember(closes: seq<Close>, n: nat, p: nat)
    requires n > 0 && p < |Grouped(closes, n).open|
    ensures Grouped(closes, n).open[p] in closes
  {
    OpenAt(closes, n, p);
    ProductOrder(0, |Grouped(closes, n).done|, n);
  }

  lemma OpenTotalBounded(strips: StripFlags, base: nat, s: State, g: Grouping)
    requires Sweeping(strips, base, s, g)
    ensures s.total <= base + CurrentTotal(g.open)
  {
    Shrinks(Carried(base, g) + CurrentTotal(g.open));
  }

  lemma {:induction false} MeasurementModest(s: State, strips: StripFlags, start: State, events: seq<Event>, m: nat)
    requires Restarted(s, strips, start) && Paced(events) && Modest(s, m) && m < MEASUREMENTS
    ensures Modest(Run(start, events), m + 1)
  {
    ModestSpacious(s, m);
    MeasurementLeaves(s, strips, start, events, VoltageAdc, 65535 * (29 * m + 1));
    MeasurementLeaves(s, strips, start, events, CurrentAdc, 65535 * (29 * m + 1));
    RestartedTurns(s, strips, start);
    PacedSteady(events, CurrentAdc);
    SweepsFrom(start, strips, events);
    OpenTotalBounded(strips, start.total, Run(start, events), Grouped(Closes(start, events), Count(strips)));
    UnfinishedAdded(s, strips, start, events);
  }

  lemma {:induction false} MeasurementsModest(modbus: bool, ms: seq<Measurement>)
    requires Regular(ms) && |ms| <= MEASUREMENTS
    ensures Modest(After(Boot(modbus), ms), |ms|)
  {
    if ms == [] {
    } else {
      var front, m := ms[..|ms| - 1], ms[|ms| - 1];
      assert m in ms && forall a <- front :: a in ms;
      MeasurementsModest(modbus, front);
      var s := After(Boot(modbus), front);
      MeasurementModest(s, m.strips, Step(s, Reconfigure(m.strips, true)), m.events, |front|);
    }
  }

  /**
   A measurement after up to sixty others from power-up.  In every paced continuation its first
   sweep converts, unless its current is zero, if and only if the leftovers let it; and that
   sweep is faithful in every continuation if and only if no total is left over.
   */
  lemma {:induction false} LaterMeasurement(modbus: bool, ms: seq<Measurement>, strips: StripFlags, start: State)
    requires Regular(ms) && |ms| <= MEASUREMENTS && Restarted(After(Boot(modbus), ms), strips, start)
    ensures var s := After(Boot(modbus), ms);
            && ((forall events | Paced(events) :: FirstConverts(start, Count(strips), events))
                <==> Ohms(FullVoltage(s), LeastCurrent(s, Count(strips))).Some?)
            && ((forall events | Paced(events) :: FirstFaithful(start, Count(strips), events)) <==> s.total == 0)
  {
    var s := After(Boot(modbus), ms);
    MeasurementsModest(modbus, ms);
    ModestSpacious(s, |ms|);
    FirstSweepConvertsExactly(s, strips, start);
    FirstSweepFrom(s, strips, start);
  }

  // ----- The fourth measurement -----

  lemma OpenFromStart(start: State, sum: uint32, v: seq<uint16>, adc: Converter)
    requires OpenSum(start, sum, v, adc, 0)
    ensures sum == (Running(start, adc) + Sum(v)) % U32
  {
    assert v[0..] == v;
  }

  lemma NothingClosed(strips: StripFlags, base: uint32, s: State)
    requires Sweeping(strips, base, s, Grouping([], []))
    ensures s.total == base
  {
  }

  lemma {:induction false} LevelAdds(start: State, sum: uint32, k: nat)
    requires OpenSum(start, sum, Level(65535, k), VoltageAdc, 0) && start.voltageSum + 65535 * k < U32
    ensures sum == start.voltageSum + 65535 * k
  {
    OpenFromStart(start, sum, Level(65535, k), VoltageAdc);
    SumFullScale(Level(65535, k));
  }

  lemma {:induction false} NothingAdds(start: State, sum: uint32, k: nat)
    requires OpenSum(start, sum, Spike(0, k), CurrentAdc, 0) && k > 0
    ensures sum == start.currentSum
  {
    OpenFromStart(start, sum, Spike(0, k), CurrentAdc);
    SumFirst(Spike(0, k));
  }

  lemma {:induction false} CutOffSums(start: State, strips: StripFlags, events: seq<Event>, k: nat)
    requires Turning(strips, 0, start) && start.voltageSum + 65535 * k < U32
    requires InBeat(events, 65535, 0, k, k, k) && k > 0 && Closes(start, events) == []
    ensures Run(start, events).voltageSum == start.voltageSum + 65535 * k
    ensures Run(start, events).currentSum == start.currentSum
  {
    SumsFrom(start, strips, events, VoltageAdc);
    SumsFrom(start, strips, events, CurrentAdc);
    LevelAdds(start, Run(start, events).voltageSum, k);
    NothingAdds(start, Run(start, events).currentSum, k);
  }

  /** A scheduler that holds the voltage of b full-scale beats and no current. */
  ghost predicate Loaded(s: State, b: nat) {
    !s.faulted && s.voltageSum == 65535 * b && s.currentSum == s.total == 0
  }

  lemma {:induction false} CutOffLeaves(s: State, strips: StripFlags, start: State, events: seq<Event>, k: nat, b: nat)
    requires Restarted(s, strips, start) && Loaded(s, b) && 0 < k < AVERAGE_COUNT && b <= 1000
    requires InBeat(events, 65535, 0, k, k, k)
    ensures Loaded(Run(start, events), b + k)
  {
    PacedSteady(events, VoltageAdc);
    RestartedTurns(s, strips, start);
    RoundRobinFrom(start, strips, events);
    assert Closes(start, events) == [];
    CutOffSums(start, strips, events, k);
    SweepsFrom(start, strips, events);
    NothingClosed(strips, start.total, Run(start, events));
  }

  /** m measurements of k beats at full scale without current. */
  function CutOffs(strips: StripFlags, k: nat, m: nat): seq<Measurement> {
    if m == 0 then [] else CutOffs(strips, k, m - 1) + [Measurement(strips, Beats(65535, 0, k))]
  }

  lemma AfterNext(s: State, ms: seq<Measurement>, m: Measurement)
    ensures After(s, ms + [m]) == Run(Step(After(s, ms), Reconfigure(m.strips, true)), m.events)
  {
    assert (ms + [m])[..|ms|] == ms;
  }

  lemma RegularNext(ms: seq<Measurement>, m: Measurement)
    requires Regular(ms) && Count(m.strips) > 0 && Paced(m.events)
    ensures Regular(ms + [m])
  {
  }

  lemma {:induction false} CutOffsRegular(strips: StripFlags, k: nat, m: nat)
    requires Count(strips) > 0
    ensures Regular(CutOffs(strips, k, m)) && |CutOffs(strips, k, m)| == m
  {
    if m == 0 {
    } else {
      CutOffsRegular(strips, k, m - 1);
      BeatsPaced(65535, 0, k);
      RegularNext(CutOffs(strips, k, m - 1), Measurement(strips, Beats(65535, 0, k)));
    }
  }

  lemma CutOffNext(modbus: bool, strips: StripFlags, k: nat, m: nat, b: nat)
    requires Count(strips) > 0 && 0 < k < AVERAGE_COUNT && b <= 1000
    requires Loaded(After(Boot(modbus), CutOffs(strips, k, m)), b)
    ensures Loaded(After(Boot(modbus), CutOffs(strips, k, m + 1)), b + k)
  {
    var s, events := After(Boot(modbus), CutOffs(strips, k, m)), Beats(65535, 0, k);
    BeatsInBeat(65535, 0, k);
    AfterNext(Boot(modbus), CutOffs(strips, k, m), Measurement(strips, events));
    CutOffLeaves(s, strips, Step(s, Reconfigure(strips, true)), events, k, b);
  }

  /**
   Three measurements from power-up, each cut off after 29 full-scale conversions, and a fourth
   one that need not convert: the reading of its first strip can come to 2280618000 ohms.
   */
  lemma {:induction false} FourthOverflows(modbus: bool, strips: StripFlags, k: nat, strips': StripFlags, start: State)
    requires Count(strips) > 0 && k == AVERAGE_COUNT - 1
    requires Restarted(After(Boot(modbus), CutOffs(strips, k, 3)), strips', start)
    ensures Regular(CutOffs(strips, k, 3)) && |CutOffs(strips, k, 3)| == 3
    ensures exists events :: Paced(events) && !FirstConverts(start, Count(strips'), events)
  {
    var s := After(Boot(modbus), CutOffs(strips, k, 3));
    CutOffsRegular(strips, k, 3);
    assert Loaded(s, 3 * k) by {
      CutOffNext(modbus, strips, k, 0, 0);
      CutOffNext(modbus, strips, k, 1, k);
      CutOffNext(modbus, strips, k, 2, k + k);
    }
    LoadedFails(s, Count(strips'));
    var events := FirstSweepFails(s, strips', start);
  }

  lemma LoadedFails(s: State, n: nat)
    requires Loaded(s, 87) && n > 0
    ensures Spacious(s) && FullVoltage(s) == 253402 && !Ohms(FullVoltage(s), LeastCurrent(s, n)).Some?
  {
    LeastIsOne(s, n);
    assert Rounded(253402, 1) == 2280618000;
  }

  lemma LeastIsOne(s: State, n: nat)
    requires n > 0 && s.total == s.currentSum == 0
    ensures LeastCurrent(s, n) == 1
  {
    QuotientIs(0, n, 0, 0);
  }
}
