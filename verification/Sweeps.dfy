/**
 Sweeps: one closed window for every active strip, in order.  After each sweep the readings
 of the active strips come from that sweep alone.
 */
module Sweeps {
  import opened Binary
  import opened Parameters
  import opened Strips
  import opened Acquisition
  import opened Rounds
  import opened Wrappers

  /** The windows of a run cut into sweeps of n, with the sweep that is still open. */
  datatype Grouping = Grouping(done: seq<seq<Close>>, open: seq<Close>)

  function Add(g: Grouping, c: Close, n: nat): Grouping {
    if |g.open| + 1 == n then Grouping(g.done + [g.open + [c]], []) else Grouping(g.done, g.open + [c])
  }

  function Grouped(closes: seq<Close>, n: nat): Grouping {
    if closes == [] then Grouping([], []) else Add(Grouped(closes[..|closes| - 1], n), closes[|closes| - 1], n)
  }

  lemma {:induction false} GroupedShape(closes: seq<Close>, n: nat)
    requires n > 0
    ensures var g := Grouped(closes, n);
            && |closes| == n * |g.done| + |g.open| && |g.open| < n
            && forall i | 0 <= i < |g.done| :: |g.done[i]| == n
  {
    if closes == [] {
    } else {
      var front := closes[..|closes| - 1];
      GroupedShape(front, n);
      var d := |Grouped(front, n).done|;
      assert n * (d + 1) == n * d + n;
    }
  }

  lemma {:induction false} OpenAt(closes: seq<Close>, n: nat, p: nat)
    requires n > 0 && p < |Grouped(closes, n).open|
    ensures n * |Grouped(closes, n).done| + p < |closes|
    ensures Grouped(closes, n).open[p] == closes[n * |Grouped(closes, n).done| + p]
  {
    GroupedShape(closes, n);
    var front := closes[..|closes| - 1];
    GroupedShape(front, n);
    if p < |Grouped(front, n).open| {
      OpenAt(front, n, p);
    }
  }

  /** Sweep i consists of the windows n*i, n*i + 1, ..., n*i + n - 1. */
  lemma {:induction false} GroupedAt(closes: seq<Close>, n: nat, i: nat, p: nat)
    requires n > 0 && i < |Grouped(closes, n).done| && p < n
    ensures |Grouped(closes, n).done[i]| == n && n * i + p < |closes|
    ensures Grouped(closes, n).done[i][p] == closes[n * i + p]
  {
    GroupedShape(closes, n);
    var front := closes[..|closes| - 1];
    GroupedShape(front, n);
    var g := Grouped(front, n);
    if i < |g.done| {
      GroupedAt(front, n, i, p);
    } else if p < |g.open| {
      OpenAt(front, n, p);
    }
  }

  lemma GroupedMember(closes: seq<Close>, n: nat, i: nat, p: nat)
    requires n > 0 && i < |Grouped(closes, n).done| && p < n
    ensures |Grouped(closes, n).done[i]| == n && Grouped(closes, n).done[i][p] in closes
  {
    GroupedAt(closes, n, i, p);
    ProductOrder(0, i, n);
  }

  /** The first window of sweep i. */
  function SweepStart(n: nat, i: nat): (k: nat)
    ensures k == n * i
  {
    ProductOrder(0, i, n);
    n * i
  }

  lemma SweepWindow(closes: seq<Close>, n: nat, i: nat, q: nat)
    requires n > 0 && i < |Grouped(closes, n).done| && q < n
    ensures |Grouped(closes, n).done[i]| == n && SweepStart(n, i) + q < |closes|
    ensures Grouped(closes, n).done[i][q] == closes[SweepStart(n, i) + q]
  {
    GroupedAt(closes, n, i, q);
  }

  // ----- What the scheduler holds in the middle of a sweep -----

  /** The averaged currents of the windows of a sweep, added up. */
  function CurrentTotal(sweep: seq<Close>): nat {
    if sweep == [] then 0 else
      CurrentTotal(sweep[..|sweep| - 1]) + sweep[|sweep| - 1].current / AVERAGE_COUNT
  }

  /** What a complete sweep reports for its p-th strip, when the running total stood at `base` as it began. */
  function Report(sweep: seq<Close>, p: nat, base: nat): Reading
    requires p < |sweep|
  {
    Reading(Ohms(sweep[p].voltage / AVERAGE_COUNT, Averaged((base + CurrentTotal(sweep)) % U32, |sweep|)),
            AsInt(sweep[p].time))
  }

  ghost predicate OnList(sweep: seq<Close>, list: seq<Channel>) {
    |sweep| <= |list| && forall p | 0 <= p < |sweep| :: sweep[p].channel == list[p]
  }

  /** The samples taken in the sweep that is open. */
  ghost predicate Sampled(samples: SampleTable, sweep: seq<Close>) {
    forall p | 0 <= p < |sweep| ::
      samples[sweep[p].channel] == Sample(sweep[p].voltage / AVERAGE_COUNT, sweep[p].time)
  }

  /** The readings that a complete sweep left. */
  ghost predicate Reported(strips: StripFlags, readings: ReadingTable, sweep: seq<Close>, base: nat) {
    && OnList(sweep, ActiveList(strips)) && |sweep| == |ActiveList(strips)|
    && (forall p | 0 <= p < |sweep| :: readings[sweep[p].channel] == Report(sweep, p, base))
  }

  /** Inactive strips have no reading. */
  ghost predicate Blank(strips: StripFlags, readings: ReadingTable) {
    forall c: Channel :: !strips[c] ==> readings[c] == Reading(Some(0), 0)
  }

  /** The sweep that is open, started with the running total at `base`. */
  ghost predicate Opened(strips: StripFlags, base: nat, s: State, sweep: seq<Close>) {
    && |sweep| == s.index && OnList(sweep, ActiveList(strips))
    && Sampled(s.samples, sweep)
    && s.total == (base + CurrentTotal(sweep)) % U32
  }

  /** The sweeps that are complete, and what they left; `base` goes into the first. */
  ghost predicate Finished(strips: StripFlags, base: nat, readings: ReadingTable, done: seq<seq<Close>>) {
    && Blank(strips, readings)
    && (forall i | 0 <= i < |done| :: OnList(done[i], ActiveList(strips)) && |done[i]| == |ActiveList(strips)|)
    && (if done == [] then readings == NoReadings()
        else Reported(strips, readings, done[|done| - 1], if |done| == 1 then base else 0))
  }

  function Carried(base: nat, g: Grouping): nat {
    if g.done == [] then base else 0
  }

  ghost predicate Sweeping(strips: StripFlags, base: nat, s: State, g: Grouping) {
    Opened(strips, Carried(base, g), s, g.open) && Finished(strips, base, s.readings, g.done)
  }

  lemma SampledGrows(samples: SampleTable, sweep: seq<Close>, c: Close, list: seq<Channel>)
    requires Sampled(samples, sweep) && OnList(sweep, list)
    requires |sweep| < |list| && c.channel == list[|sweep|]
    requires forall i, j | 0 <= i < j < |list| :: list[i] < list[j]
    ensures Sampled(samples[c.channel := Sample(c.voltage / AVERAGE_COUNT, c.time)], sweep + [c])
    ensures OnList(sweep + [c], list)
  {
  }

  lemma TotalGrows(sweep: seq<Close>, c: Close, base: nat, total: nat)
    requires total == (base + CurrentTotal(sweep)) % U32
    ensures (total + c.current / AVERAGE_COUNT) % U32 == (base + CurrentTotal(sweep + [c])) % U32
  {
    assert (sweep + [c])[..|sweep|] == sweep;
    ModuloAdds(base + CurrentTotal(sweep), c.current / AVERAGE_COUNT);
  }

  lemma ModuloAdds(a: nat, b: nat)
    ensures (a % U32 + b) % U32 == (a + b) % U32
  {
  }

  lemma {:induction false} ComputedReports(strips: StripFlags, samples: SampleTable, readings: ReadingTable,
                                           sweep: seq<Close>, base: nat, current: nat)
    requires Sampled(samples, sweep) && OnList(sweep, ActiveList(strips)) && |sweep| == |ActiveList(strips)| > 0
    requires Blank(strips, readings) && current == Averaged((base + CurrentTotal(sweep)) % U32, |sweep|)
    ensures Reported(strips, Computed(strips, samples, readings, current), sweep, base)
    ensures Blank(strips, Computed(strips, samples, readings, current))
  {
    ActiveListed(strips);
    var after := Computed(strips, samples, readings, current);
    forall p | 0 <= p < |sweep| ensures after[sweep[p].channel] == Report(sweep, p, base) {
      assert ActiveList(strips)[p] in ActiveList(strips);
    }
  }

  /** The state after a window closes in the middle of a sweep, and at the end of one. */
  ghost predicate ClosedInto(s: State, c: Close, s': State) {
    && s.index < s.stripCount == |s.indices|
    && c.channel == s.indices[s.index]
    && s'.samples == s.samples[c.channel := Sample(c.voltage / AVERAGE_COUNT, c.time)]
    && var total := (s.total + c.current / AVERAGE_COUNT) % U32;
       if s.index + 1 < s.stripCount
       then s'.index == s.index + 1 && s'.total == total && s'.readings == s.readings
       else s'.index == 0 && s'.total == 0
            && s'.readings == Computed(s.active, s'.samples, s.readings, Averaged(total, s.stripCount))
  }

  lemma TickCloses(strips: StripFlags, t: nat, s: State)
    requires Turning(strips, t, s) && t % AVERAGE_COUNT == AVERAGE_COUNT - 1
    ensures |Closed(s, Tick)| == 1 && ClosedInto(s, Closed(s, Tick)[0], Step(s, Tick))
  {
    if s.index + 1 < s.stripCount {
      QuotientIs(s.index + 1, s.stripCount, 0, s.index + 1);
    } else {
      QuotientIs(s.index + 1, s.stripCount, 1, 0);
    }
  }

  lemma {:induction false} SweepGoesOn(strips: StripFlags, b: nat, s: State, c: Close, s': State, sweep: seq<Close>)
    requires s.indices == ActiveList(strips) && Opened(strips, b, s, sweep)
    requires ClosedInto(s, c, s') && s.index + 1 < s.stripCount
    ensures Opened(strips, b, s', sweep + [c]) && s'.readings == s.readings
  {
    ActiveListed(strips);
    SampledGrows(s.samples, sweep, c, ActiveList(strips));
    TotalGrows(sweep, c, b, s.total);
  }

  lemma SweepComputes(strips: StripFlags, b: nat, s: State, c: Close, s': State, sweep: seq<Close>, current: nat)
    requires s.active == strips && Opened(strips, b, s, sweep)
    requires ClosedInto(s, c, s') && s.index + 1 == s.stripCount
    requires current == Averaged((b + CurrentTotal(sweep + [c])) % U32, |sweep| + 1)
    ensures s'.readings == Computed(strips, s'.samples, s.readings, current)
  {
    TotalGrows(sweep, c, b, s.total);
    var total := (s.total + c.current / AVERAGE_COUNT) % U32;
    assert total == (b + CurrentTotal(sweep + [c])) % U32 && s.stripCount == |sweep| + 1;
    assert Averaged(total, s.stripCount) == current;
  }

  lemma {:induction false} SweepEnds(strips: StripFlags, b: nat, s: State, c: Close, s': State, sweep: seq<Close>)
    requires s.indices == ActiveList(strips) && s.active == strips && Blank(strips, s.readings)
    requires Opened(strips, b, s, sweep)
    requires ClosedInto(s, c, s') && s.index + 1 == s.stripCount
    ensures Reported(strips, s'.readings, sweep + [c], b) && Blank(strips, s'.readings)
  {
    ActiveListed(strips);
    SampledGrows(s.samples, sweep, c, ActiveList(strips));
    var current := Averaged((b + CurrentTotal(sweep + [c])) % U32, |sweep| + 1);
    SweepComputes(strips, b, s, c, s', sweep, current);
    ComputedReports(strips, s'.samples, s.readings, sweep + [c], b, current);
  }

  lemma SweepOpens(strips: StripFlags, s: State, c: Close, s': State)
    requires ClosedInto(s, c, s') && s.index + 1 == s.stripCount
    ensures Opened(strips, 0, s', [])
  {
  }

  lemma FinishedGrows(strips: StripFlags, base: nat, before: ReadingTable, done: seq<seq<Close>>,
                      readings: ReadingTable, sweep: seq<Close>)
    requires Finished(strips, base, before, done) && Blank(strips, readings)
    requires Reported(strips, readings, sweep, if done == [] then base else 0)
    ensures Finished(strips, base, readings, done + [sweep])
  {
    var all := done + [sweep];
    assert all[|all| - 1] == sweep;
    forall i | 0 <= i < |all| ensures OnList(all[i], ActiveList(strips)) && |all[i]| == |ActiveList(strips)| {
      if i < |done| {
        assert all[i] == done[i];
      }
    }
  }

  /** Everything but a closing tick leaves the sweep as it is. */
  lemma SweepWaits(strips: StripFlags, base: nat, t: nat, s: State, e: Event, g: Grouping)
    requires Turning(strips, t, s) && Sweeping(strips, base, s, g) && !e.Reconfigure?
    requires !(e.Tick? && t % AVERAGE_COUNT == AVERAGE_COUNT - 1)
    ensures Sweeping(strips, base, Step(s, e), g) && Closed(s, e) == []
  {
  }

  lemma StepSweeps(strips: StripFlags, base: nat, t: nat, s: State, e: Event, closes: seq<Close>)
    requires Turning(strips, t, s) && !e.Reconfigure?
    requires Sweeping(strips, base, s, Grouped(closes, s.stripCount))
    ensures Sweeping(strips, base, Step(s, e), Grouped(closes + Closed(s, e), s.stripCount))
  {
    if e.Tick? && t % AVERAGE_COUNT == AVERAGE_COUNT - 1 {
      TickCloses(strips, t, s);
      var c, g := Closed(s, e)[0], Grouped(closes, s.stripCount);
      if s.index + 1 < s.stripCount {
        SweepGoesOn(strips, Carried(base, g), s, c, Step(s, e), g.open);
      } else {
        SweepEnds(strips, Carried(base, g), s, c, Step(s, e), g.open);
        SweepOpens(strips, s, c, Step(s, e));
        FinishedGrows(strips, base, s.readings, g.done, Step(s, e).readings, g.open + [c]);
      }
      assert (closes + [c])[..|closes|] == closes;
    } else {
      SweepWaits(strips, base, t, s, e, Grouped(closes, s.stripCount));
      assert closes + [] == closes;
    }
  }

  lemma {:induction false} SweepsFrom(start: State, strips: StripFlags, events: seq<Event>)
    requires Turning(strips, 0, start) && Steady(events)
    requires start.readings == NoReadings()
    ensures Sweeping(strips, start.total, Run(start, events), Grouped(Closes(start, events), Count(strips)))
  {
    if events == [] {
      QuotientIs(0, Count(strips), 0, 0);
    } else {
      var n := |events| - 1;
      Front(events);
      SweepsFrom(start, strips, events[..n]);
      RoundRobinFrom(start, strips, events[..n]);
      StepSweeps(strips, start.total, Ticks(events[..n]), Run(start, events[..n]), events[n], Closes(start, events[..n]));
    }
  }

  /**
   The report after any run since a reconfiguration.  Strips that are not active stay blank.
   Once a sweep is complete, every active strip shows the resistance and the time of its
   window in the last complete sweep, whose current alone it is computed from; only the
   first sweep also counts what the running total held at the reconfiguration.
   */
  lemma SweepReport(s: State, strips: StripFlags, start: State, events: seq<Event>)
    requires Restarted(s, strips, start) && Steady(events)
    ensures var readings := Run(start, events).readings;
            var done := Grouped(Closes(start, events), Count(strips)).done;
            && Blank(strips, readings)
            && (done == [] ==> readings == NoReadings())
            && (done != [] ==>
                  Reported(strips, readings, done[|done| - 1], if |done| == 1 then s.total else 0))
  {
    RestartedTurns(s, strips, start);
    SweepsFrom(start, strips, events);
  }

  /** A strip that is not active keeps its reading until the next reconfiguration. */
  lemma {:induction false} InactiveKeeps(s: State, events: seq<Event>, c: Channel)
    requires Steady(events) && !s.active[c]
    ensures Run(s, events).readings[c] == s.readings[c] && Run(s, events).active == s.active
  {
    if events == [] {
    } else {
      Front(events);
      InactiveKeeps(s, events[..|events| - 1], c);
    }
  }

  // ----- How often each strip is recorded -----

  function Visits(closes: seq<Close>, c: Channel): nat {
    if closes == [] then 0 else
      Visits(closes[..|closes| - 1], c) + if closes[|closes| - 1].channel == c then 1 else 0
  }

  /** How often a run over a list of n strips visits the strip in place p: once a sweep. */
  lemma {:induction false} VisitsInTurn(closes: seq<Close>, list: seq<Channel>, p: nat)
    requires InTurn(closes, list) && p < |list|
    requires forall i, j | 0 <= i < j < |list| :: list[i] < list[j]
    ensures var g := Grouped(closes, |list|);
            Visits(closes, list[p]) == |g.done| + if p < |g.open| then 1 else 0
  {
    if closes == [] {
    } else {
      var q := |closes| - 1;
      var front := closes[..q];
      VisitsInTurn(front, list, p);
      GroupedShape(front, |list|);
      var g := Grouped(front, |list|);
      QuotientIs(q, |list|, |g.done|, |g.open|);
    }
  }

  lemma {:induction false} NoVisits(closes: seq<Close>, list: seq<Channel>, c: Channel)
    requires InTurn(closes, list) && c !in list
    ensures Visits(closes, c) == 0
  {
    if closes == [] {
    } else {
      NoVisits(closes[..|closes| - 1], list, c);
    }
  }

  /** After 30*n*k ticks every active strip has been recorded exactly k times and no other strip ever. */
  lemma EvenCoverage(s: State, strips: StripFlags, start: State, events: seq<Event>, k: nat, c: Channel)
    requires Restarted(s, strips, start) && Steady(events)
    requires Ticks(events) == AVERAGE_COUNT * (Count(strips) * k)
    ensures Visits(Closes(start, events), c) == if strips[c] then k else 0
  {
    var list, closes := ActiveList(strips), Closes(start, events);
    ActiveListed(strips);
    RoundRobin(s, strips, start, events);
    assert |closes| == Count(strips) * k;
    if strips[c] {
      var p :| 0 <= p < |list| && list[p] == c;
      VisitsInTurn(closes, list, p);
      GroupedShape(closes, |list|);
      var g := Grouped(closes, |list|);
      QuotientIs(|closes|, |list|, |g.done|, |g.open|);
      QuotientIs(|closes|, |list|, k, 0);
    } else {
      NoVisits(closes, list, c);
    }
  }

  // ----- Times -----

  function Milliseconds(events: seq<Event>): nat {
    if events == [] then 0 else
      Milliseconds(events[..|events| - 1]) + if events[|events| - 1].Millisecond? then 1 else 0
  }

  ghost predicate Chronological(closes: seq<Close>, now: nat) {
    && (forall i | 0 <= i < |closes| :: closes[i].time <= now)
    && forall i, j | 0 <= i <= j < |closes| :: closes[i].time <= closes[j].time
  }

  lemma {:induction false} ClosesInTime(start: State, strips: StripFlags, events: seq<Event>)
    requires Turning(strips, 0, start) && Steady(events) && start.clock == 0
    requires Milliseconds(events) < U32
    ensures Run(start, events).clock == Milliseconds(events)
    ensures Chronological(Closes(start, events), Milliseconds(events))
  {
    if events == [] {
    } else {
      var n := |events| - 1;
      Front(events);
      ClosesInTime(start, strips, events[..n]);
      RoundRobinFrom(start, strips, events[..n]);
      StepInTime(strips, Ticks(events[..n]), Run(start, events[..n]), events[n]);
    }
  }

  lemma StepInTime(strips: StripFlags, t: nat, s: State, e: Event)
    requires Turning(strips, t, s) && !e.Reconfigure? && (e.Millisecond? ==> s.clock + 1 < U32)
    ensures Step(s, e).clock == s.clock + if e.Millisecond? then 1 else 0
    ensures |Closed(s, e)| <= 1 && forall c <- Closed(s, e) :: c.time == s.clock
  {
    StepTurns(strips, t, s, e);
  }

  lemma WindowOrder(closes: seq<Close>, n: nat, now: nat, i: nat, p: nat, j: nat, r: nat)
    requires n > 0 && Chronological(closes, now)
    requires i <= j < |Grouped(closes, n).done| && p < n && r < n && (i == j ==> p <= r)
    ensures |Grouped(closes, n).done[i]| == n == |Grouped(closes, n).done[j]|
    ensures Grouped(closes, n).done[i][p].time <= Grouped(closes, n).done[j][r].time <= now
  {
    GroupedAt(closes, n, i, p);
    GroupedAt(closes, n, j, r);
    PlaceOrder(n, i, p, j, r);
  }

  lemma PlaceOrder(n: nat, i: nat, p: nat, j: nat, r: nat)
    requires n > 0 && p < n && i <= j && (i == j ==> p <= r)
    ensures n * i + p <= n * j + r
  {
    assert n * j - n * i == n * (j - i);
    if i < j {
      Multiple(n, j - i);
    }
  }

  /** The reading of the p-th active strip. */
  function Shown(s: State, strips: StripFlags, p: nat): Reading
    requires p < |ActiveList(strips)|
  {
    s.readings[ActiveList(strips)[p]]
  }

  lemma IntOrder(a: uint32, b: uint32)
    requires a <= b
    ensures AsInt(a) <= AsInt(b) <==> !(a < INT_LIMIT <= b)
  {
  }

  lemma ShownReported(strips: StripFlags, s: State, sweep: seq<Close>, base: nat, p: nat)
    requires Reported(strips, s.readings, sweep, base) && p < |sweep|
    ensures Shown(s, strips, p) == Report(sweep, p, base)
  {
    assert sweep[p].channel == ActiveList(strips)[p];
  }

  /** The times of the windows of the last complete sweep, and of the one before. */
  ghost predicate Ordered(done: seq<seq<Close>>, n: nat, p: nat, r: nat, now: nat) {
    done != [] &&
    var last := done[|done| - 1];
    && |last| == n && p <= r < n && last[p].time <= last[r].time <= now
    && (|done| > 1 ==> |done[|done| - 2]| == n && done[|done| - 2][r].time <= last[p].time)
  }

  lemma WindowsOrdered(strips: StripFlags, start: State, events: seq<Event>, p: nat, r: nat)
    requires Turning(strips, 0, start) && start.clock == 0 && Steady(events) && Milliseconds(events) < U32
    requires p <= r < Count(strips) && Grouped(Closes(start, events), Count(strips)).done != []
    ensures Ordered(Grouped(Closes(start, events), Count(strips)).done, Count(strips), p, r, Milliseconds(events))
  {
    var n, closes := Count(strips), Closes(start, events);
    var last := |Grouped(closes, n).done| - 1;
    ClosesInTime(start, strips, events);
    WindowOrder(closes, n, Milliseconds(events), last, p, last, r);
    if last > 0 {
      WindowOrder(closes, n, Milliseconds(events), last - 1, r, last, p);
    }
  }

  lemma TimesShown(s: State, strips: StripFlags, start: State, events: seq<Event>, p: nat)
    requires Restarted(s, strips, start) && Steady(events) && p < Count(strips) == |ActiveList(strips)|
    requires Grouped(Closes(start, events), Count(strips)).done != []
    ensures var done := Grouped(Closes(start, events), Count(strips)).done;
            && |done[|done| - 1]| == Count(strips)
            && Shown(Run(start, events), strips, p).time == AsInt(done[|done| - 1][p].time)
  {
    var done := Grouped(Closes(start, events), Count(strips)).done;
    SweepReport(s, strips, start, events);
    ShownReported(strips, Run(start, events), done[|done| - 1], if |done| == 1 then s.total else 0, p);
  }

  /** The ints a and b shown for windows p and r keep their order unless the clock passed 2^31 in between. */
  ghost predicate OrderShown(done: seq<seq<Close>>, n: nat, p: nat, r: nat, now: nat, a: int, b: int) {
    && Ordered(done, n, p, r, now)
    && var last := done[|done| - 1];
       && a == AsInt(last[p].time) && b == AsInt(last[r].time)
       && (a <= b <==> !(last[p].time < INT_LIMIT <= last[r].time))
       && (|done| > 1 ==>
             var before := done[|done| - 2][r].time;
             (AsInt(before) <= a <==> !(before < INT_LIMIT <= last[p].time)))
  }

  lemma OrderedShown(done: seq<seq<Close>>, n: nat, p: nat, r: nat, now: nat, a: int, b: int)
    requires Ordered(done, n, p, r, now)
    requires a == AsInt(done[|done| - 1][p].time) && b == AsInt(done[|done| - 1][r].time)
    ensures OrderShown(done, n, p, r, now, a, b)
  {
    var last := done[|done| - 1];
    IntOrder(last[p].time, last[r].time);
    if |done| > 1 {
      IntOrder(done[|done| - 2][r].time, last[p].time);
    }
  }

  /**
   While the clock does not wrap, the windows of the active strips close in strip order, none
   before a window of the sweep before.  The times shown for them are ints: they keep an order
   exactly unless the clock passed 2^31 in between, which turns the later one negative.
   */
  lemma SweepTimes(s: State, strips: StripFlags, start: State, events: seq<Event>, p: nat, r: nat)
    requires Restarted(s, strips, start) && Steady(events) && Milliseconds(events) < U32
    requires p <= r < Count(strips) == |ActiveList(strips)|
    requires Grouped(Closes(start, events), Count(strips)).done != []
    ensures OrderShown(Grouped(Closes(start, events), Count(strips)).done, Count(strips), p, r, Milliseconds(events),
                       Shown(Run(start, events), strips, p).time, Shown(Run(start, events), strips, r).time)
  {
    RestartedTurns(s, strips, start);
    WindowsOrdered(strips, start, events, p, r);
    TimesShown(s, strips, start, events, p);
    TimesShown(s, strips, start, events, r);
    OrderedShown(Grouped(Closes(start, events), Count(strips)).done, Count(strips), p, r, Milliseconds(events),
                 Shown(Run(start, events), strips, p).time, Shown(Run(start, events), strips, r).time);
  }

  // ----- The times shown, told from the run alone -----

  /** A word as an int of the same bits: they differ by a multiple of 2^32. */
  lemma AsIntExactly(word: uint32)
    ensures -0x8000_0000 <= AsInt(word) < 0x8000_0000
    ensures AsInt(word) == word || AsInt(word) == word - 0x1_0000_0000
  {
  }

  /** The milliseconds that have passed when tick t comes. */
  function TickTime(events: seq<Event>, t: nat): nat
    requires 1 <= t <= Ticks(events)
  {
    var front := events[..|events| - 1];
    if Ticks(front) < t then Milliseconds(front) else TickTime(front, t)
  }

  /** Every window closes at its thirtieth tick, and records the clock of that moment. */
  ghost predicate ClosedOnTime(closes: seq<Close>, events: seq<Event>) {
    && 30 * |closes| <= Ticks(events)
    && forall k | 0 <= k < |closes| :: closes[k].time == TickTime(events, 30 * (k + 1)) % U32
  }

  lemma TickTimeKept(front: seq<Event>, e: Event, t: nat)
    requires 1 <= t <= Ticks(front)
    ensures Ticks(front + [e]) == Ticks(front) + if e.Tick? then 1 else 0
    ensures TickTime(front + [e], t) == TickTime(front, t)
  {
    assert (front + [e])[..|front|] == front;
  }

  lemma TickTimeNow(front: seq<Event>)
    ensures Ticks(front + [Tick]) == Ticks(front) + 1
    ensures TickTime(front + [Tick], Ticks(front) + 1) == Milliseconds(front)
  {
    assert (front + [Tick])[..|front|] == front;
  }

  lemma {:induction false} OnTimeStep(closes: seq<Close>, front: seq<Event>, e: Event, added: seq<Close>)
    requires ClosedOnTime(closes, front) && |closes| == Ticks(front) / 30
    requires added == [] || (e == Tick && Ticks(front) % 30 == 29 && |added| == 1
                             && added[0].time == Milliseconds(front) % U32)
    ensures ClosedOnTime(closes + added, front + [e])
  {
    var all := closes + added;
    assert Ticks(front + [e]) >= Ticks(front) by {
      assert (front + [e])[..|front|] == front;
    }
    if added != [] {
      TickTimeNow(front);
    }
    forall k | 0 <= k < |all| ensures all[k].time == TickTime(front + [e], 30 * (k + 1)) % U32 {
      if k < |closes| {
        assert closes[k].time == TickTime(front, 30 * (k + 1)) % U32;
        TickTimeKept(front, e, 30 * (k + 1));
      }
    }
  }

  lemma ClockStep(s: State, e: Event, ms: nat)
    requires !s.faulted && !e.Reconfigure? && s.clock == ms % U32
    ensures Step(s, e).clock == (ms + if e.Millisecond? then 1 else 0) % U32
  {
  }

  lemma CloseStep(strips: StripFlags, t: nat, s: State, e: Event)
    requires Turning(strips, t, s) && !e.Reconfigure?
    ensures Closed(s, e) == [] ||
            (e == Tick && t % AVERAGE_COUNT == AVERAGE_COUNT - 1 && |Closed(s, e)| == 1 && Closed(s, e)[0].time == s.clock)
  {
    StepTurns(strips, t, s, e);
  }

  lemma {:induction false} ClockIs(start: State, events: seq<Event>)
    requires Steady(events) && start.clock == 0 && !Run(start, events).faulted
    ensures Run(start, events).clock == Milliseconds(events) % U32
  {
    if events == [] {
    } else {
      var front := events[..|events| - 1];
      Front(events);
      StillFaulted(Run(start, front), events[|events| - 1]);
      ClockIs(start, front);
      ClockStep(Run(start, front), events[|events| - 1], Milliseconds(front));
    }
  }

  lemma {:induction false} ClosesOnTime(start: State, strips: StripFlags, events: seq<Event>)
    requires Turning(strips, 0, start) && Steady(events) && start.clock == 0
    ensures ClosedOnTime(Closes(start, events), events)
  {
    if events == [] {
    } else {
      var front, e := events[..|events| - 1], events[|events| - 1];
      Front(events);
      ClosesOnTime(start, strips, front);
      RoundRobinFrom(start, strips, front);
      ClockIs(start, front);
      CloseStep(strips, Ticks(front), Run(start, front), e);
      assert events == front + [e];
      OnTimeStep(Closes(start, front), front, e, Closed(Run(start, front), e));
    }
  }

  lemma {:induction false} TickTimeBounded(events: seq<Event>, t: nat)
    requires 1 <= t <= Ticks(events)
    ensures TickTime(events, t) <= Milliseconds(events)
  {
    var front := events[..|events| - 1];
    if Ticks(front) < t {
    } else {
      TickTimeBounded(front, t);
    }
  }

  /** The tick that closes window p of sweep i over n strips. */
  function ClosingTick(n: nat, i: nat, p: nat): nat {
    30 * (SweepStart(n, i) + p + 1)
  }

  lemma SweepOnTime(closes: seq<Close>, events: seq<Event>, n: nat, i: nat, p: nat)
    requires ClosedOnTime(closes, events) && n > 0 && i < |Grouped(closes, n).done| && p < n
    ensures |Grouped(closes, n).done[i]| == n && 1 <= ClosingTick(n, i, p) <= Ticks(events)
    ensures Grouped(closes, n).done[i][p].time == TickTime(events, ClosingTick(n, i, p)) % U32
  {
    SweepWindow(closes, n, i, p);
    var k := SweepStart(n, i) + p;
    assert closes[k].time == TickTime(events, 30 * (k + 1)) % U32;
  }

  /**
   The time shown for the p-th strip is that of the tick that closed its window in the last
   complete sweep: the milliseconds before it, as an int of the same 32 bits, and up to 2^31 ms
   the very number.
   */
  lemma ShownTime(s: State, strips: StripFlags, start: State, events: seq<Event>, p: nat)
    requires Restarted(s, strips, start) && Steady(events) && p < Count(strips) == |ActiveList(strips)|
    requires Grouped(Closes(start, events), Count(strips)).done != []
    ensures var t := ClosingTick(Count(strips), |Grouped(Closes(start, events), Count(strips)).done| - 1, p);
            && 1 <= t <= Ticks(events)
            && Shown(Run(start, events), strips, p).time == AsInt(TickTime(events, t) % U32)
            && (Milliseconds(events) < 0x8000_0000 ==> Shown(Run(start, events), strips, p).time == TickTime(events, t))
  {
    var n, i := Count(strips), |Grouped(Closes(start, events), Count(strips)).done| - 1;
    RestartedTurns(s, strips, start);
    ClosesOnTime(start, strips, events);
    SweepOnTime(Closes(start, events), events, n, i, p);
    TimesShown(s, strips, start, events, p);
    TickTimeBounded(events, ClosingTick(n, i, p));
    StaysInt(TickTime(events, ClosingTick(n, i, p)));
  }

  lemma StaysInt(ms: nat)
    ensures ms < 0x8000_0000 ==> AsInt(ms % U32) == ms
  {
  }

  /** So up to 2^31 ms the times shown simply rise. */
  lemma SweepTimesRise(s: State, strips: StripFlags, start: State, events: seq<Event>, p: nat, r: nat)
    requires Restarted(s, strips, start) && Steady(events) && Milliseconds(events) < INT_LIMIT
    requires p <= r < Count(strips) == |ActiveList(strips)|
    requires Grouped(Closes(start, events), Count(strips)).done != []
    ensures 0 <= Shown(Run(start, events), strips, p).time <= Shown(Run(start, events), strips, r).time <= Milliseconds(events)
  {
    SweepTimes(s, strips, start, events, p, r);
  }
}
