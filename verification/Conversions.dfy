/** A reading in terms of the conversions it was made from. */
module Conversions {
  import opened Acquisition
  import opened Binary
  import opened Parameters
  import opened Rounds
  import opened Sweeps
  import opened Windows
  import opened Wrappers

  /** The average of window k over its own conversions, and over the residue in window 0. */
  function WindowMean(s: State, v: seq<uint16>, adc: Converter, k: nat): nat
    requires First(k + 1) <= |v|
  {
    (Residue(s, adc, k) + Sum(Share(v, k))) % U32 / AVERAGE_COUNT
  }

  /** The averages of m windows from window k on, added up. */
  function MeansTotal(s: State, v: seq<uint16>, k: nat, m: nat): nat
    requires First(k + m) <= |v|
  {
    if m == 0 then 0 else MeansTotal(s, v, k, m - 1) + WindowMean(s, v, CurrentAdc, k + m - 1)
  }

  /** The conversions reach to the end of sweep i. */
  predicate Covered(volts: seq<uint16>, amps: seq<uint16>, n: nat, i: nat) {
    First(SweepStart(n, i) + n) <= |volts| && First(SweepStart(n, i) + n) <= |amps|
  }

  /** The resistance that sweep i over n strips shows for its p-th strip. */
  function Resistance(s: State, volts: seq<uint16>, amps: seq<uint16>, n: nat, i: nat, p: nat): Option<nat>
    requires Covered(volts, amps, n, i) && p < n
  {
    var k := SweepStart(n, i);
    var total := ((if i == 0 then s.total else 0) + MeansTotal(s, amps, k, n)) % U32;
    Ohms(WindowMean(s, volts, VoltageAdc, k + p), Averaged(total, n))
  }

  /** What a closed window averages to. */
  ghost predicate IsMean(s: State, volts: seq<uint16>, amps: seq<uint16>, c: Close, k: nat) {
    && First(k + 1) <= |volts| && First(k + 1) <= |amps|
    && c.voltage / AVERAGE_COUNT == WindowMean(s, volts, VoltageAdc, k)
    && c.current / AVERAGE_COUNT == WindowMean(s, amps, CurrentAdc, k)
  }

  lemma SumsAreMeans(s: State, volts: seq<uint16>, amps: seq<uint16>, c: Close, k: nat)
    requires WindowSum(s, volts, c, VoltageAdc, k) && WindowSum(s, amps, c, CurrentAdc, k)
    ensures IsMean(s, volts, amps, c, k)
  {
  }

  /** Every closed window averages its own conversions. */
  ghost predicate AllMeans(s: State, volts: seq<uint16>, amps: seq<uint16>, closes: seq<Close>) {
    forall k | 0 <= k < |closes| :: IsMean(s, volts, amps, closes[k], k)
  }

  lemma {:induction false} WindowsAreMeans(s: State, strips: StripFlags, start: State, events: seq<Event>)
    requires Restarted(s, strips, start) && Paced(events)
    ensures AllMeans(s, Converted(events, VoltageAdc), Converted(events, CurrentAdc), Closes(start, events))
  {
    var volts, amps, closes := Converted(events, VoltageAdc), Converted(events, CurrentAdc), Closes(start, events);
    forall k | 0 <= k < |closes| ensures IsMean(s, volts, amps, closes[k], k) {
      WindowComposition(s, strips, start, events, VoltageAdc, k);
      WindowComposition(s, strips, start, events, CurrentAdc, k);
      SumsAreMeans(s, volts, amps, closes[k], k);
    }
  }

  lemma {:induction false} TotalIsMeans(s: State, volts: seq<uint16>, amps: seq<uint16>, sweep: seq<Close>, k: nat)
    requires sweep != [] && forall p | 0 <= p < |sweep| :: IsMean(s, volts, amps, sweep[p], k + p)
    ensures First(k + |sweep|) <= |amps| && First(k + |sweep|) <= |volts|
    ensures CurrentTotal(sweep) == MeansTotal(s, amps, k, |sweep|)
  {
    var front := sweep[..|sweep| - 1];
    assert IsMean(s, volts, amps, sweep[|sweep| - 1], k + |sweep| - 1);
    if front == [] {
      assert MeansTotal(s, amps, k, 0) == 0;
    } else {
      forall p | 0 <= p < |front| ensures IsMean(s, volts, amps, front[p], k + p) {
        assert IsMean(s, volts, amps, sweep[p], k + p);
      }
      TotalIsMeans(s, volts, amps, front, k);
    }
  }

  lemma MeansReport(s: State, volts: seq<uint16>, amps: seq<uint16>, sweep: seq<Close>, n: nat, i: nat, p: nat)
    requires |sweep| == n && p < n
    requires forall q | 0 <= q < n :: IsMean(s, volts, amps, sweep[q], SweepStart(n, i) + q)
    ensures Covered(volts, amps, n, i)
    ensures Report(sweep, p, if i == 0 then s.total else 0).ohms == Resistance(s, volts, amps, n, i, p)
  {
    TotalIsMeans(s, volts, amps, sweep, SweepStart(n, i));
    assert IsMean(s, volts, amps, sweep[p], SweepStart(n, i) + p);
  }

  lemma {:induction false} SweepReports(s: State, volts: seq<uint16>, amps: seq<uint16>, closes: seq<Close>,
                                        n: nat, i: nat, p: nat)
    requires AllMeans(s, volts, amps, closes) && i < |Grouped(closes, n).done| && p < n
    ensures Covered(volts, amps, n, i) && |Grouped(closes, n).done[i]| == n
    ensures Report(Grouped(closes, n).done[i], p, if i == 0 then s.total else 0).ohms == Resistance(s, volts, amps, n, i, p)
  {
    var sweep := Grouped(closes, n).done[i];
    SweepWindow(closes, n, i, p);
    forall q | 0 <= q < n ensures IsMean(s, volts, amps, sweep[q], SweepStart(n, i) + q) {
      SweepWindow(closes, n, i, q);
    }
    MeansReport(s, volts, amps, sweep, n, i, p);
  }

  /** What complete sweep i reports for its p-th strip, told from the conversions alone. */
  lemma {:induction false} ReportIs(s: State, strips: StripFlags, start: State, events: seq<Event>, i: nat, p: nat)
    requires Restarted(s, strips, start) && Paced(events)
    requires i < |Grouped(Closes(start, events), Count(strips)).done| && p < Count(strips)
    ensures Covered(Converted(events, VoltageAdc), Converted(events, CurrentAdc), Count(strips), i)
    ensures |Grouped(Closes(start, events), Count(strips)).done[i]| == Count(strips)
    ensures Report(Grouped(Closes(start, events), Count(strips)).done[i], p, if i == 0 then s.total else 0).ohms
         == Resistance(s, Converted(events, VoltageAdc), Converted(events, CurrentAdc), Count(strips), i, p)
  {
    WindowsAreMeans(s, strips, start, events);
    SweepReports(s, Converted(events, VoltageAdc), Converted(events, CurrentAdc), Closes(start, events), Count(strips), i, p);
  }
}
