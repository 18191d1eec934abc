/**
 What the scheduler holds and shows over any run from power-up, whatever reconfigurations it
 contains, failed ones included: samples, running total and readings told from the windows that
 have closed.
 */
module History {
  import opened Acquisition
  import opened Binary
  import opened Parameters
  import opened Rounds
  import opened Strips
  import opened Sweeps

  /** The last window that closed on a channel, as a sample; zeros if none has. */
  function Latest(closes: seq<Close>, c: Channel): Sample {
    if closes == [] then Sample(0, 0) else
      var last := closes[|closes| - 1];
      if last.channel == c then Sample(last.voltage / 30, last.time) else Latest(closes[..|closes| - 1], c)
  }

  /** The windows that have closed since the last time the first strip's turn came round. */
  function Pending(s: State, events: seq<Event>): seq<Close> {
    if events == [] then [] else
      var front := events[..|events| - 1];
      StillPending(Run(s, front), events[|events| - 1], Pending(s, front))
  }

  function StillPending(s: State, e: Event, pending: seq<Close>): seq<Close> {
    if Closed(s, e) == [] then pending else if Step(s, e).index == 0 then [] else pending + Closed(s, e)
  }

  lemma LatestAppend(closes: seq<Close>, c: Close, d: Channel)
    ensures Latest(closes + [c], d) == if c.channel == d then Sample(c.voltage / 30, c.time) else Latest(closes, d)
  {
    assert (closes + [c])[..|closes|] == closes;
  }

  /** A step that closes no window leaves samples and total alone. */
  lemma NoCloseKeeps(s: State, e: Event)
    requires !Step(s, e).faulted && Closed(s, e) == []
    ensures Step(s, e).samples == s.samples && Step(s, e).total == s.total
  {
  }

  /** What a closing tick does. */
  lemma CloseRecords(s: State, e: Event)
    requires !Step(s, e).faulted && Closed(s, e) != []
    ensures e == Tick && |Closed(s, e)| == 1 && s.stripCount > 0
    ensures var c, s' := Closed(s, e)[0], Step(s, e);
            var total := (s.total + c.current / 30) % U32;
            && s'.samples == s.samples[c.channel := Sample(c.voltage / 30, c.time)]
            && s'.index == (s.index + 1) % s.stripCount
            && s'.total == (if s'.index == 0 then 0 else total)
            && (s'.index != 0 ==> s'.readings == s.readings)
            && (s'.index == 0 ==> s'.readings == Computed(s.active, s'.samples, s.readings, Averaged(total, s.stripCount)))
  {
  }

  /** The sample table holds, for every channel, the last window that closed on it. */
  lemma {:induction false} SamplesAreLatest(modbus: bool, events: seq<Event>, c: Channel)
    requires !Run(Boot(modbus), events).faulted
    ensures Run(Boot(modbus), events).samples[c] == Latest(Closes(Boot(modbus), events), c)
  {
    if events == [] {
    } else {
      var front, e := events[..|events| - 1], events[|events| - 1];
      var s := Run(Boot(modbus), front);
      StillFaulted(s, e);
      SamplesAreLatest(modbus, front, c);
      SampleStep(s, e, Closes(Boot(modbus), front), c);
    }
  }

  lemma SampleStep(s: State, e: Event, closes: seq<Close>, c: Channel)
    requires !Step(s, e).faulted && s.samples[c] == Latest(closes, c)
    ensures Step(s, e).samples[c] == Latest(closes + Closed(s, e), c)
  {
    if Closed(s, e) == [] {
      NoCloseKeeps(s, e);
      assert closes + [] == closes;
    } else {
      CloseRecords(s, e);
      LatestAppend(closes, Closed(s, e)[0], c);
      assert Closed(s, e) == [Closed(s, e)[0]];
    }
  }

  /** The running total is the averaged current of the windows pending, modulo 2^32. */
  lemma {:induction false} TotalIsPending(modbus: bool, events: seq<Event>)
    requires !Run(Boot(modbus), events).faulted
    ensures Run(Boot(modbus), events).total == CurrentTotal(Pending(Boot(modbus), events)) % U32
  {
    if events == [] {
    } else {
      var front, e := events[..|events| - 1], events[|events| - 1];
      var s := Run(Boot(modbus), front);
      StillFaulted(s, e);
      TotalIsPending(modbus, front);
      TotalStep(s, e, Pending(Boot(modbus), front));
    }
  }

  lemma TotalStep(s: State, e: Event, pending: seq<Close>)
    requires !Step(s, e).faulted && s.total == CurrentTotal(pending) % U32
    ensures Step(s, e).total == CurrentTotal(StillPending(s, e, pending)) % U32
  {
    if Closed(s, e) == [] {
      NoCloseKeeps(s, e);
    } else {
      CloseRecords(s, e);
      assert Closed(s, e) == [Closed(s, e)[0]];
      TotalWith(s.total, pending, Closed(s, e)[0]);
    }
  }

  lemma TotalWith(total: nat, pending: seq<Close>, c: Close)
    requires total == CurrentTotal(pending) % U32
    ensures (total + c.current / 30) % U32 == CurrentTotal(pending + [c]) % U32
  {
    TotalGrows(pending, c, 0, total);
  }

  /** What a strip shows when the turn of the first strip comes round. */
  function Reported(closes: seq<Close>, pending: seq<Close>, n: nat, c: Channel): Reading
    requires n > 0
  {
    Reading(Ohms(Latest(closes, c).value, CurrentTotal(pending) % U32 / n), AsInt(Latest(closes, c).time))
  }

  /** What a closing tick makes of the reading of channel c, given the windows closed and pending up to it. */
  ghost predicate Shows(s: State, s': State, closes: seq<Close>, pending: seq<Close>, c: Channel) {
    && s.stripCount > 0 && s'.index == (s.index + 1) % s.stripCount
    && s'.readings[c] == if s'.index == 0 && s.active[c] then Reported(closes, pending, s.stripCount, c) else s.readings[c]
  }

  /**
   A closing tick in any run from power-up.  When the turn of the first strip comes round, every
   active strip shows the last window that closed on it over the averaged current of the windows
   pending, divided by the number of strips asked for last; all other readings stay.
   */
  lemma TickShows(modbus: bool, events: seq<Event>, c: Channel)
    requires var s := Run(Boot(modbus), events); !Step(s, Tick).faulted && Closed(s, Tick) != []
    ensures var s := Run(Boot(modbus), events);
            Shows(s, Step(s, Tick), Closes(Boot(modbus), events + [Tick]),
                  Pending(Boot(modbus), events) + Closed(s, Tick), c)
  {
    StillFaulted(Run(Boot(modbus), events), Tick);
    SamplesAreLatest(modbus, events, c);
    TotalIsPending(modbus, events);
    ClosesAppend(Boot(modbus), events, Tick);
    TickReports(Run(Boot(modbus), events), Closes(Boot(modbus), events), Pending(Boot(modbus), events), c);
  }

  lemma ClosesAppend(s: State, events: seq<Event>, e: Event)
    ensures Closes(s, events + [e]) == Closes(s, events) + Closed(Run(s, events), e)
  {
    assert (events + [e])[..|events|] == events;
  }

  lemma ComputedAt(active: StripFlags, samples: SampleTable, readings: ReadingTable, current: nat, c: Channel)
    ensures Computed(active, samples, readings, current)[c]
         == if active[c] then Reading(Ohms(samples[c].value, current), AsInt(samples[c].time)) else readings[c]
  {
  }

  lemma TickReports(s: State, closes: seq<Close>, pending: seq<Close>, c: Channel)
    requires !Step(s, Tick).faulted && Closed(s, Tick) != []
    requires s.samples[c] == Latest(closes, c) && s.total == CurrentTotal(pending) % U32
    ensures Shows(s, Step(s, Tick), closes + Closed(s, Tick), pending + Closed(s, Tick), c)
  {
    var d, s' := Closed(s, Tick)[0], Step(s, Tick);
    CloseRecords(s, Tick);
    SampleStep(s, Tick, closes, c);
    assert Closed(s, Tick) == [d];
    TotalWith(s.total, pending, d);
    if s'.index == 0 {
      var current := CurrentTotal(pending + [d]) % U32 / s.stripCount;
      assert s'.readings == Computed(s.active, s'.samples, s.readings, current);
      ComputedAt(s.active, s'.samples, s.readings, current, c);
    }
  }

  /** m places further on in a list over n strips. */
  function PlaceAfter(from: nat, m: nat, n: nat): nat {
    if m == 0 then from else if n == 0 then 0 else (from + m) % n
  }

  /** After m windows without a reconfiguration the place in the list has moved on by m, modulo the strip count. */
  lemma {:induction false} PlaceAdvances(s: State, events: seq<Event>)
    requires Steady(events) && !Run(s, events).faulted
    ensures Run(s, events).stripCount == s.stripCount
    ensures Run(s, events).index == PlaceAfter(s.index, |Closes(s, events)|, s.stripCount)
  {
    if events == [] {
    } else {
      var front, e := events[..|events| - 1], events[|events| - 1];
      Front(events);
      StillFaulted(Run(s, front), e);
      PlaceAdvances(s, front);
      PlaceStep(Run(s, front), e, s.index, |Closes(s, front)|);
    }
  }

  lemma PlaceStep(s: State, e: Event, from: nat, m: nat)
    requires !Step(s, e).faulted && !e.Reconfigure?
    requires s.index == PlaceAfter(from, m, s.stripCount)
    ensures Step(s, e).stripCount == s.stripCount
    ensures Step(s, e).index == PlaceAfter(from, m + |Closed(s, e)|, s.stripCount)
  {
    if Closed(s, e) != [] {
      CloseRecords(s, e);
      NextModulo(from + m, s.stripCount);
    }
  }

  /** A successful reconfiguration without a strip: an empty list, all select pins high, nothing recorded. */
  lemma EmptyRestart(s: State, strips: StripFlags)
    requires !s.faulted && Count(strips) == 0
    ensures var s' := Step(s, Reconfigure(strips, true));
            && s'.running && !s'.faulted && s'.indices == [] && s'.stripCount == s'.index == s'.count == s'.clock == 0
            && s'.pins == Pins(true, true, true) && s'.readings == NoReadings()
            && s'.total == s.total && s'.voltageSum == s.voltageSum && s'.currentSum == s.currentSum
            && s'.samples == s.samples
  {
    ActiveListed(strips);
    SelectBits(-1);
  }
}
