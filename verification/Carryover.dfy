/**
 What a reconfiguration carries over into the next measurement.  It clears neither the sums nor
 the running total, so a measurement that is cut off in the middle of a sweep leaves the current
 of that sweep to the first sweep of the next one.
 */
module Carryover {
  import opened Acquisition
  import opened Binary
  import opened Parameters
  import Reals
  import opened Rounds
  import opened Sweeps
  import opened Truncation
  import opened Windows

  // ----- A paced run with one voltage throughout and a single current other than zero -----

  /** The current that beat k delivers. */
  function Pulse(x: uint16, k: nat): uint16 {
    if k == 0 then x else 0
  }

  /** k ticks, each with its two conversions: voltages u, and currents 0 except the first. */
  function Beats(u: uint16, x: uint16, k: nat): seq<Event> {
    if k == 0 then [] else Beats(u, x, k - 1) + [Tick] + [Voltage(u)] + [Current(Pulse(x, k - 1))]
  }

  function Level(u: uint16, k: nat): (v: seq<uint16>)
    ensures |v| == k
  {
    seq(k, _ => u)
  }

  function Spike(x: uint16, k: nat): (v: seq<uint16>)
    ensures |v| == k
  {
    seq(k, i => if i == 0 then x else 0)
  }

  lemma AppendEvent(front: seq<Event>, e: Event)
    requires Paced(front) && InPace(front, e)
    ensures Paced(front + [e]) && Ticks(front + [e]) == Ticks(front) + if e.Tick? then 1 else 0
    ensures Converted(front + [e], VoltageAdc) == Converted(front, VoltageAdc) + Delivered(e, VoltageAdc)
    ensures Converted(front + [e], CurrentAdc) == Converted(front, CurrentAdc) + Delivered(e, CurrentAdc)
  {
    assert (front + [e])[..|front|] == front;
  }

  lemma LevelNext(u: uint16, k: nat)
    ensures Level(u, k + 1) == Level(u, k) + [u]
  {
  }

  lemma SpikeNext(x: uint16, k: nat)
    ensures Spike(x, k + 1) == Spike(x, k) + [Pulse(x, k)]
  {
  }

  /** A paced run with t ticks, the first v of the voltages and the first c of the currents. */
  ghost predicate InBeat(events: seq<Event>, u: uint16, x: uint16, t: nat, v: nat, c: nat) {
    && Paced(events) && Ticks(events) == t
    && Converted(events, VoltageAdc) == Level(u, v) && Converted(events, CurrentAdc) == Spike(x, c)
  }

  lemma NoneInBeat(u: uint16, x: uint16)
    ensures InBeat([], u, x, 0, 0, 0)
  {
  }

  lemma TickInBeat(front: seq<Event>, u: uint16, x: uint16, k: nat)
    requires InBeat(front, u, x, k, k, k)
    ensures InBeat(front + [Tick], u, x, k + 1, k, k)
  {
    AppendEvent(front, Tick);
  }

  lemma VoltageInBeat(front: seq<Event>, u: uint16, x: uint16, k: nat)
    requires InBeat(front, u, x, k + 1, k, k)
    ensures InBeat(front + [Voltage(u)], u, x, k + 1, k + 1, k)
  {
    AppendEvent(front, Voltage(u));
    LevelNext(u, k);
  }

  lemma CurrentInBeat(front: seq<Event>, u: uint16, x: uint16, k: nat)
    requires InBeat(front, u, x, k + 1, k + 1, k)
    ensures InBeat(front + [Current(Pulse(x, k))], u, x, k + 1, k + 1, k + 1)
  {
    AppendEvent(front, Current(Pulse(x, k)));
    SpikeNext(x, k);
  }

  lemma BeatInBeat(front: seq<Event>, ticked: seq<Event>, sensed: seq<Event>, u: uint16, x: uint16, k: nat)
    requires InBeat(front, u, x, k, k, k) && ticked == front + [Tick] && sensed == ticked + [Voltage(u)]
    ensures InBeat(sensed + [Current(Pulse(x, k))], u, x, k + 1, k + 1, k + 1)
  {
    TickInBeat(front, u, x, k);
    VoltageInBeat(ticked, u, x, k);
    CurrentInBeat(sensed, u, x, k);
  }

  lemma {:induction false} BeatsInBeat(u: uint16, x: uint16, k: nat)
    ensures InBeat(Beats(u, x, k), u, x, k, k, k)
  {
    if k == 0 {
      NoneInBeat(u, x);
    } else {
      var front := Beats(u, x, k - 1);
      BeatsInBeat(u, x, k - 1);
      BeatInBeat(front, front + [Tick], front + [Tick] + [Voltage(u)], u, x, k - 1);
    }
  }

  lemma BeatsPaced(u: uint16, x: uint16, k: nat)
    ensures Paced(Beats(u, x, k)) && Ticks(Beats(u, x, k)) == k
    ensures Converted(Beats(u, x, k), VoltageAdc) == Level(u, k)
    ensures Converted(Beats(u, x, k), CurrentAdc) == Spike(x, k)
  {
    BeatsInBeat(u, x, k);
  }

  lemma {:induction false} SumFirst(values: seq<uint16>)
    requires values != [] && forall i | 0 < i < |values| :: values[i] == 0
    ensures Sum(values) == values[0]
  {
    if |values| == 1 {
      assert values[..0] == [];
    } else {
      SumFirst(values[..|values| - 1]);
    }
  }

  lemma SpikeShare(x: uint16, k: nat, p: nat)
    requires p < k
    ensures First(p + 1) <= AVERAGE_COUNT * k
    ensures Sum(Share(Spike(x, AVERAGE_COUNT * k), p)) == if p == 0 then x else 0
  {
    SumFirst(Share(Spike(x, AVERAGE_COUNT * k), p));
  }

  lemma SpikeSum(s: State, c: Close, v: seq<uint16>, x: uint16, k: nat, p: nat)
    requires v == Spike(x, AVERAGE_COUNT * k) && p < k && s.currentSum + x < U32
    requires WindowSum(s, v, c, CurrentAdc, p)
    ensures c.current == if p == 0 then s.currentSum + x else 0
  {
    SpikeShare(x, k, p);
  }

  lemma BeatWindow(s: State, strips: StripFlags, start: State, events: seq<Event>, x: uint16, k: nat, p: nat)
    requires Restarted(s, strips, start) && s.currentSum + x < U32
    requires Paced(events) && Converted(events, CurrentAdc) == Spike(x, AVERAGE_COUNT * k)
    requires p < k == |Closes(start, events)|
    ensures Closes(start, events)[p].current == if p == 0 then s.currentSum + x else 0
  {
    WindowComposition(s, strips, start, events, CurrentAdc, p);
    SpikeSum(s, Closes(start, events)[p], Spike(x, AVERAGE_COUNT * k), x, k, p);
  }

  /** Each of k windows consumes no current, except the first: the residue and x. */
  lemma BeatWindows(s: State, strips: StripFlags, start: State, u: uint16, x: uint16, k: nat)
    requires Restarted(s, strips, start) && s.currentSum + x < U32
    ensures var closes := Closes(start, Beats(u, x, AVERAGE_COUNT * k));
            && |closes| == k
            && forall p | 0 <= p < k :: closes[p].current == if p == 0 then s.currentSum + x else 0
  {
    BeatsPaced(u, x, AVERAGE_COUNT * k);
    PacedSteady(Beats(u, x, AVERAGE_COUNT * k), CurrentAdc);
    RoundRobin(s, strips, start, Beats(u, x, AVERAGE_COUNT * k));
    assert |Closes(start, Beats(u, x, AVERAGE_COUNT * k))| == k;
    forall p | 0 <= p < k
      ensures Closes(start, Beats(u, x, AVERAGE_COUNT * k))[p].current == if p == 0 then s.currentSum + x else 0
    {
      BeatWindow(s, strips, start, Beats(u, x, AVERAGE_COUNT * k), x, k, p);
    }
  }

  lemma {:induction false} FirstWindowOnly(sweep: seq<Close>)
    requires sweep != [] && forall p | 0 < p < |sweep| :: sweep[p].current == 0
    ensures CurrentTotal(sweep) == sweep[0].current / AVERAGE_COUNT && CurrentSum(sweep) == sweep[0].current
  {
    if |sweep| == 1 {
      assert sweep[..0] == [];
    } else {
      FirstWindowOnly(sweep[..|sweep| - 1]);
    }
  }

  lemma OneSweep(closes: seq<Close>)
    requires closes != []
    ensures Grouped(closes, |closes|).done == [closes]
  {
    var done := Grouped(closes, |closes|).done;
    OneSweepShape(closes, |closes|);
    forall p | 0 <= p < |closes| ensures done[0][p] == closes[p] {
      GroupedAt(closes, |closes|, 0, p);
      Cancels(|closes|, p);
    }
    assert done[0] == closes;
  }

  lemma OneSweepShape(closes: seq<Close>, n: nat)
    requires |closes| == n > 0
    ensures |Grouped(closes, n).done| == 1 && |Grouped(closes, n).done[0]| == n
  {
    var g := Grouped(closes, n);
    GroupedShape(closes, n);
    QuotientIs(n, n, |g.done|, |g.open|);
    QuotientIs(n, n, 1, 0);
  }

  lemma Cancels(n: nat, p: nat)
    ensures n * 0 + p == p
  {
  }

  // ----- The first sweep of a measurement -----

  /** If the run completes a first sweep, what that sweep reports is faithful to its own windows. */
  ghost predicate FirstFaithful(start: State, n: nat, events: seq<Event>)
    requires n > 0
  {
    var done := Grouped(Closes(start, events), n).done;
    done != [] ==> done[0] != [] && Faithful(done[0], start.total)
  }

  lemma EmptyTotalFaithful(start: State, n: nat, events: seq<Event>)
    requires 0 < n <= STRIP_COUNT && start.total == 0
    ensures FirstFaithful(start, n, events)
  {
    var closes := Closes(start, events);
    GroupedShape(closes, n);
    if Grouped(closes, n).done != [] {
      NestedTruncation(Grouped(closes, n).done[0]);
    }
  }

  /** Whole quotients: a total of base + m makes n windows with mean m/n report more than that mean. */
  lemma ReportsTooMuch(sweep: seq<Close>, base: nat, m: nat, n: nat)
    requires |sweep| == n > 0 && base > 0 && base + m < U32 && (base + m) % n == 0
    requires CurrentTotal(sweep) == m && CurrentSum(sweep) == AVERAGE_COUNT * m
    ensures !Faithful(sweep, base)
  {
    var reported := ReportedCurrent(sweep, base);
    Division(base + m, n);
    assert n * reported == base + m;
    Quotients(CurrentSum(sweep), m, n, reported);
  }

  lemma Quotients(sum: nat, m: nat, n: nat, reported: nat)
    requires n > 0 && sum == 30 * m && n * reported > m
    ensures sum as real / 30.0 / n as real < reported as real
  {
    var mean := sum as real / 30.0 / n as real;
    Reals.Quotient(sum as real / 30.0, n as real);
    Reals.RealProduct(n, reported);
    if mean >= reported as real {
      Reals.Grows(reported as real, mean, n as real);
      assert false;
    }
  }

  /** A conversion that completes the residue to a multiple of 30, and the total to a multiple of n. */
  function Completing(residue: nat, base: nat, n: nat): (x: nat)
    requires 0 < n <= STRIP_COUNT
    ensures x <= AVERAGE_COUNT * n && (residue + x) % AVERAGE_COUNT == 0
    ensures (base + (residue + x) / AVERAGE_COUNT) % n == 0
  {
    var up := (residue + AVERAGE_COUNT - 1) / AVERAGE_COUNT;
    var rest := (base + up) % n;
    var m := up + if rest == 0 then 0 else n - rest;
    Division(base + up, n);
    UpTo(base + up, n);
    AVERAGE_COUNT * m - residue
  }

  lemma UpTo(a: nat, n: nat)
    requires n > 0
    ensures var rest := a % n;
            (a + if rest == 0 then 0 else n - rest) % n == 0
  {
    var rest := a % n;
    Division(a, n);
    if rest != 0 {
      assert n * (a / n) + n == n * (a / n + 1);
      QuotientIs(a + n - rest, n, a / n + 1, 0);
    }
  }

  /** Room for one more conversion and its average. */
  predicate Roomy(s: State) {
    s.currentSum + 240 < U32 && s.total + s.currentSum / AVERAGE_COUNT + 9 < U32
  }

  lemma CompletedFits(s: State, x: nat, n: nat)
    requires Roomy(s) && 0 < n <= STRIP_COUNT && x <= AVERAGE_COUNT * n && (s.currentSum + x) % AVERAGE_COUNT == 0
    ensures s.currentSum + x < U32 && s.total + (s.currentSum + x) / AVERAGE_COUNT < U32
    ensures s.currentSum + x == AVERAGE_COUNT * ((s.currentSum + x) / AVERAGE_COUNT)
  {
  }

  /** A first sweep whose only current is the one that completes the residue reports too much. */
  lemma CompletedMisreports(s: State, start: State, closes: seq<Close>, x: nat, n: nat, events: seq<Event>)
    requires Roomy(s) && s.total > 0 && 0 < n <= STRIP_COUNT && x == Completing(s.currentSum, s.total, n)
    requires closes == Closes(start, events) && |closes| == n && start.total == s.total
    requires forall p | 0 <= p < n :: closes[p].current == if p == 0 then s.currentSum + x else 0
    ensures !FirstFaithful(start, n, events)
  {
    var m := (s.currentSum + x) / AVERAGE_COUNT;
    CompletedFits(s, x, n);
    OneSweep(closes);
    FirstWindowOnly(closes);
    assert CurrentTotal(closes) == m && CurrentSum(closes) == AVERAGE_COUNT * m;
    ReportsTooMuch(closes, s.total, m, n);
  }

  /** That conversion as a 16-bit value. */
  function Spiking(s: State, n: nat): (x: uint16)
    requires Roomy(s) && 0 < n <= STRIP_COUNT
    ensures x == Completing(s.currentSum, s.total, n) && s.currentSum + x < U32
  {
    Completing(s.currentSum, s.total, n)
  }

  lemma BeatsMisreport(s: State, strips: StripFlags, start: State, x: uint16, n: nat)
    requires Restarted(s, strips, start) && n == Count(strips) && Roomy(s) && s.total > 0
    requires x == Spiking(s, n)
    ensures !FirstFaithful(start, n, Beats(0, x, AVERAGE_COUNT * n))
  {
    BeatWindows(s, strips, start, 0, x, n);
    RestartedTurns(s, strips, start);
    var events := Beats(0, x, AVERAGE_COUNT * n);
    CompletedMisreports(s, start, Closes(start, events), x, n, events);
  }

  lemma {:induction false} LeftoverMisreports(s: State, strips: StripFlags, start: State)
    requires Restarted(s, strips, start) && Roomy(s) && s.total > 0
    ensures exists events :: Paced(events) && !FirstFaithful(start, Count(strips), events)
  {
    var n := Count(strips);
    BeatsMisreport(s, strips, start, Spiking(s, n), n);
    BeatsPaced(0, Spiking(s, n), AVERAGE_COUNT * n);
  }

  /** With a total left over, some continuation misreports its first sweep; with none, no continuation does. */
  lemma {:induction false} FirstSweepFrom(s: State, strips: StripFlags, start: State)
    requires Restarted(s, strips, start) && Roomy(s)
    ensures (forall events | Paced(events) :: FirstFaithful(start, Count(strips), events)) <==> s.total == 0
  {
    RestartedTurns(s, strips, start);
    if s.total == 0 {
      forall events | Paced(events) ensures FirstFaithful(start, Count(strips), events) {
        EmptyTotalFaithful(start, Count(strips), events);
      }
    } else {
      LeftoverMisreports(s, strips, start);
    }
  }

  // ----- The measurement after the first -----

  /** The sweep that a run leaves unfinished. */
  function Unfinished(start: State, strips: StripFlags, events: seq<Event>): seq<Close> {
    Grouped(Closes(start, events), Count(strips)).open
  }

  lemma OpenTotal(strips: StripFlags, s: State, g: Grouping)
    requires Sweeping(strips, 0, s, g)
    ensures s.total == CurrentTotal(g.open) % U32
  {
  }

  lemma TotalCarried(start: State, strips: StripFlags, events: seq<Event>)
    requires Turning(strips, 0, start) && Steady(events)
    requires start.readings == NoReadings() && start.total == 0
    ensures Run(start, events).total == CurrentTotal(Unfinished(start, strips, events)) % U32
  {
    SweepsFrom(start, strips, events);
    OpenTotal(strips, Run(start, events), Grouped(Closes(start, events), Count(strips)));
  }

  lemma UnfinishedBounded(start: State, strips: StripFlags, events: seq<Event>)
    requires Count(strips) > 0
    ensures CurrentTotal(Unfinished(start, strips, events)) <= 7 * (U32 / AVERAGE_COUNT)
  {
    GroupedShape(Closes(start, events), Count(strips));
    WindowTruncation(Unfinished(start, strips, events));
  }

  /** The total at the end of a first measurement is the current of its unfinished sweep. */
  lemma TotalLeft(s: State, strips: StripFlags, start: State, events: seq<Event>)
    requires Restarted(s, strips, start) && Steady(events) && s.total == 0
    ensures Run(start, events).total == CurrentTotal(Unfinished(start, strips, events)) <= 7 * (U32 / AVERAGE_COUNT)
  {
    RestartedTurns(s, strips, start);
    TotalCarried(start, strips, events);
    UnfinishedBounded(start, strips, events);
    Unwrapped(CurrentTotal(Unfinished(start, strips, events)));
  }

  lemma Unwrapped(x: nat)
    requires x <= 7 * (U32 / AVERAGE_COUNT)
    ensures x % U32 == x
  {
  }

  lemma OpenSumBounded(start: State, sum: uint32, v: seq<uint16>, k: nat)
    requires OpenSum(start, sum, v, CurrentAdc, k) && start.currentSum == 0
    requires |v| <= First(k) + AVERAGE_COUNT
    ensures sum <= 65535 * AVERAGE_COUNT
  {
    SumBounded(v[First(k)..]);
    Shrinks(Sum(v[First(k)..]));
  }

  lemma ResidueLeft(s: State, strips: StripFlags, start: State, events: seq<Event>)
    requires Restarted(s, strips, start) && Paced(events) && s.currentSum == 0
    ensures Run(start, events).currentSum <= 65535 * AVERAGE_COUNT
  {
    RestartedTurns(s, strips, start);
    PacedSteady(events, CurrentAdc);
    RoundRobinFrom(start, strips, events);
    SumsFrom(start, strips, events, CurrentAdc);
    OpenSumBounded(start, Run(start, events).currentSum, Converted(events, CurrentAdc), |Closes(start, events)|);
  }

  lemma Shrinks(x: nat)
    ensures x % U32 <= x
  {
  }

  /**
   A second measurement after a first one from power-up.  Its first sweep reports faithfully in
   every continuation exactly when the sweep that the first measurement left unfinished had no
   averaged current in it.
   */
  lemma {:induction false} SecondMeasurement(modbus: bool, strips: StripFlags, start: State, before: seq<Event>,
                          strips': StripFlags, restart: State)
    requires Restarted(Boot(modbus), strips, start) && Paced(before)
    requires Restarted(Run(start, before), strips', restart)
    ensures (forall events | Paced(events) :: FirstFaithful(restart, Count(strips'), events))
       <==> CurrentTotal(Unfinished(start, strips, before)) == 0
  {
    PacedSteady(before, CurrentAdc);
    TotalLeft(Boot(modbus), strips, start, before);
    ResidueLeft(Boot(modbus), strips, start, before);
    FirstSweepFrom(Run(start, before), strips', restart);
  }

  /**
   Such a first measurement, for any two or more strips: cut off after its first window, which
   had a current of 30.
   */
  lemma {:induction false} MisreportHappens(modbus: bool, strips: StripFlags, start: State, strips': StripFlags, restart: State)
    requires Count(strips) >= 2 && Restarted(Boot(modbus), strips, start)
    requires Restarted(Run(start, Beats(0, 30, AVERAGE_COUNT)), strips', restart)
    ensures exists events :: Paced(events) && !FirstFaithful(restart, Count(strips'), events)
  {
    BeatsPaced(0, 30, AVERAGE_COUNT);
    BeatWindows(Boot(modbus), strips, start, 0, 30, 1);
    OneWindow(Closes(start, Beats(0, 30, AVERAGE_COUNT)), Count(strips));
    SecondMeasurement(modbus, strips, start, Beats(0, 30, AVERAGE_COUNT), strips', restart);
  }

  lemma OneWindow(closes: seq<Close>, n: nat)
    requires |closes| == 1 && closes[0].current == 30 && n >= 2
    ensures CurrentTotal(Grouped(closes, n).open) == 1
  {
    assert closes[..0] == [];
    assert Grouped(closes, n).open == closes;
    FirstWindowOnly(closes);
  }
}
