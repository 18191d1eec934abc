/** Which conversions each averaging window sums up, and that no conversion is lost between windows. */
module Windows {
  import opened Acquisition
  import opened Binary
  import opened Parameters
  import opened Rounds
  import opened Strips

  /** The running sum of a converter, and the sum a closed window consumed. */
  function Running(s: State, adc: Converter): uint32 {
    if adc == VoltageAdc then s.voltageSum else s.currentSum
  }

  function Consumed(c: Close, adc: Converter): uint32 {
    if adc == VoltageAdc then c.voltage else c.current
  }

  function TotalConsumed(closes: seq<Close>, adc: Converter): nat {
    if closes == [] then 0 else
      TotalConsumed(closes[..|closes| - 1], adc) + Consumed(closes[|closes| - 1], adc)
  }

  // ----- Conservation -----

  lemma StepConserves(s: State, e: Event, adc: Converter)
    requires !Step(s, e).faulted
    ensures !s.faulted && |Closed(s, e)| + |Delivered(e, adc)| <= 1
    ensures if Delivered(e, adc) != [] then Running(Step(s, e), adc) == (Running(s, adc) + Delivered(e, adc)[0]) % U32
            else if Closed(s, e) != [] then Running(Step(s, e), adc) == 0 && Consumed(Closed(s, e)[0], adc) == Running(s, adc)
            else Running(Step(s, e), adc) == Running(s, adc)
  {
  }

  /** What came in balances what went out and what is still there. */
  ghost predicate Balanced(first: uint32, values: seq<uint16>, closes: seq<Close>, now: uint32, adc: Converter) {
    (first + Sum(values)) % U32 == (TotalConsumed(closes, adc) + now) % U32
  }

  /**
   Over any run, reconfigurations included, what a converter delivered equals what closed
   windows consumed plus what is still running, up to the wrap of the 32-bit sums.
   */
  lemma {:induction false} SampleConservation(s: State, events: seq<Event>, adc: Converter)
    requires !Run(s, events).faulted
    ensures Balanced(Running(s, adc), Converted(events, adc), Closes(s, events), Running(Run(s, events), adc), adc)
  {
    if events == [] {
    } else {
      var n := |events| - 1;
      StillFaulted(Run(s, events[..n]), events[n]);
      SampleConservation(s, events[..n], adc);
      StepBalances(Running(s, adc), Run(s, events[..n]), events[n], Converted(events[..n], adc), Closes(s, events[..n]), adc);
    }
  }

  lemma StepBalances(first: uint32, s: State, e: Event, values: seq<uint16>, closes: seq<Close>, adc: Converter)
    requires !Step(s, e).faulted
    requires Balanced(first, values, closes, Running(s, adc), adc)
    ensures Balanced(first, values + Delivered(e, adc), closes + Closed(s, e), Running(Step(s, e), adc), adc)
  {
    StepConserves(s, e, adc);
    if Delivered(e, adc) != [] {
      assert closes + Closed(s, e) == closes;
      DeliveryBalances(first, values, closes, Running(s, adc), adc, Delivered(e, adc)[0]);
    } else if Closed(s, e) != [] {
      assert values + Delivered(e, adc) == values;
      CloseBalances(first, values, closes, adc, Closed(s, e)[0]);
    } else {
      assert closes + Closed(s, e) == closes && values + Delivered(e, adc) == values;
    }
  }

  lemma DeliveryBalances(first: uint32, values: seq<uint16>, closes: seq<Close>, now: uint32, adc: Converter, x: uint16)
    requires Balanced(first, values, closes, now, adc)
    ensures Balanced(first, values + [x], closes, (now + x) % U32, adc)
  {
    assert (values + [x])[..|values|] == values;
    AddBoth(first + Sum(values), TotalConsumed(closes, adc) + now, x);
    AddWrapped(TotalConsumed(closes, adc), now + x);
  }

  lemma CloseBalances(first: uint32, values: seq<uint16>, closes: seq<Close>, adc: Converter, c: Close)
    requires Balanced(first, values, closes, Consumed(c, adc), adc)
    ensures Balanced(first, values, closes + [c], 0, adc)
  {
    assert (closes + [c])[..|closes|] == closes;
  }

  lemma AddBoth(a: nat, b: nat, x: nat)
    requires a % U32 == b % U32
    ensures (a + x) % U32 == (b + x) % U32
  {
  }

  lemma AddWrapped(a: nat, b: nat)
    ensures (a + b % U32) % U32 == (a + b) % U32
  {
  }

  // ----- Composition -----

  /** Event e keeps the pace: a tick waits for both conversions of the tick before, a conversion for its tick. */
  ghost predicate InPace(front: seq<Event>, e: Event) {
    match e
    case Tick => |Converted(front, VoltageAdc)| == Ticks(front) == |Converted(front, CurrentAdc)|
    case Voltage(_) => |Converted(front, VoltageAdc)| < Ticks(front)
    case Current(_) => |Converted(front, CurrentAdc)| < Ticks(front)
    case Millisecond => true
    case Reconfigure(_, _) => false
  }

  /** Every tick's trigger delivers one conversion of each kind before the next tick. */
  ghost predicate Paced(events: seq<Event>) {
    events == [] ||
    var front := events[..|events| - 1];
    Paced(front) && InPace(front, events[|events| - 1])
  }

  lemma {:induction false} PacedSteady(events: seq<Event>, adc: Converter)
    requires Paced(events)
    ensures Steady(events) && Ticks(events) - 1 <= |Converted(events, adc)| <= Ticks(events)
  {
    if events == [] {
    } else {
      PacedSteady(events[..|events| - 1], adc);
      assert forall i | 0 <= i < |events| - 1 :: events[i] == events[..|events| - 1][i];
    }
  }

  /** The first conversion that window k sums; conversion i is the one that tick i + 1 triggered. */
  function First(k: nat): nat {
    if k == 0 then 0 else AVERAGE_COUNT * k - 1
  }

  /** What the sum held before the first conversion of window k. */
  function Residue(start: State, adc: Converter, k: nat): uint32 {
    if k == 0 then Running(start, adc) else 0
  }

  /** The conversions of window k. */
  function Share(v: seq<uint16>, k: nat): seq<uint16>
    requires First(k + 1) <= |v|
  {
    v[First(k)..First(k + 1)]
  }

  /** The first window has 29 conversions, every other 30. */
  lemma ShareSize(v: seq<uint16>, k: nat)
    requires First(k + 1) <= |v|
    ensures |Share(v, k)| == if k == 0 then 29 else 30
  {
  }

  /** Closed window k consumed its conversions. */
  ghost predicate WindowSum(start: State, v: seq<uint16>, c: Close, adc: Converter, k: nat) {
    && First(k + 1) <= |v|
    && Consumed(c, adc) == (Residue(start, adc, k) + Sum(Share(v, k))) % U32
  }

  /** The running sum in the middle of a window. */
  ghost predicate OpenSum(start: State, sum: uint32, v: seq<uint16>, adc: Converter, k: nat) {
    First(k) <= |v| && sum == (Residue(start, adc, k) + Sum(v[First(k)..])) % U32
  }

  ghost predicate Summing(start: State, sum: uint32, v: seq<uint16>, closes: seq<Close>, adc: Converter) {
    && OpenSum(start, sum, v, adc, |closes|)
    && forall k | 0 <= k < |closes| :: WindowSum(start, v, closes[k], adc, k)
  }

  lemma OpenSumDelivery(start: State, sum: uint32, v: seq<uint16>, adc: Converter, k: nat, x: uint16)
    requires OpenSum(start, sum, v, adc, k)
    ensures OpenSum(start, (sum + x) % U32, v + [x], adc, k)
  {
    var tail := v[First(k)..];
    assert (v + [x])[First(k)..] == tail + [x];
    assert (tail + [x])[..|tail|] == tail;
    AddWrapped(x, Residue(start, adc, k) + Sum(tail));
  }

  lemma SummingDelivery(start: State, sum: uint32, v: seq<uint16>, closes: seq<Close>, adc: Converter, x: uint16)
    requires Summing(start, sum, v, closes, adc)
    ensures Summing(start, (sum + x) % U32, v + [x], closes, adc)
  {
    OpenSumDelivery(start, sum, v, adc, |closes|, x);
    forall k | 0 <= k < |closes| ensures WindowSum(start, v + [x], closes[k], adc, k) {
      assert WindowSum(start, v, closes[k], adc, k);
      assert Share(v + [x], k) == Share(v, k);
    }
  }

  lemma SummingClose(start: State, sum: uint32, v: seq<uint16>, closes: seq<Close>, adc: Converter, c: Close)
    requires Summing(start, sum, v, closes, adc)
    requires |v| == First(|closes| + 1) && Consumed(c, adc) == sum
    ensures Summing(start, 0, v, closes + [c], adc)
  {
    var k := |closes|;
    assert Share(v, k) == v[First(k)..];
    assert WindowSum(start, v, c, adc, k);
    assert v[First(k + 1)..] == [];
    assert OpenSum(start, 0, v, adc, k + 1);
  }

  lemma {:induction false} SumsFrom(start: State, strips: StripFlags, events: seq<Event>, adc: Converter)
    requires Turning(strips, 0, start) && Paced(events)
    ensures Summing(start, Running(Run(start, events), adc), Converted(events, adc), Closes(start, events), adc)
  {
    if events == [] {
      assert Converted(events, adc)[0..] == [];
    } else {
      var n := |events| - 1;
      PacedSteady(events[..n], adc);
      SumsFrom(start, strips, events[..n], adc);
      RoundRobinFrom(start, strips, events[..n]);
      SumsStep(start, strips, Ticks(events[..n]), Run(start, events[..n]), events[n],
               Converted(events[..n], adc), Closes(start, events[..n]), adc);
    }
  }

  lemma SumsStep(start: State, strips: StripFlags, t: nat, s: State, e: Event,
                 v: seq<uint16>, closes: seq<Close>, adc: Converter)
    requires Turning(strips, t, s) && !e.Reconfigure? && |closes| == t / AVERAGE_COUNT
    requires e.Tick? ==> |v| == t
    requires Summing(start, Running(s, adc), v, closes, adc)
    ensures Summing(start, Running(Step(s, e), adc), v + Delivered(e, adc), closes + Closed(s, e), adc)
  {
    StepTurns(strips, t, s, e);
    StepConserves(s, e, adc);
    if Delivered(e, adc) != [] {
      SummingDelivery(start, Running(s, adc), v, closes, adc, Delivered(e, adc)[0]);
      assert closes + Closed(s, e) == closes;
    } else if Closed(s, e) != [] {
      SummingClose(start, Running(s, adc), v, closes, adc, Closed(s, e)[0]);
      assert v + Delivered(e, adc) == v;
    } else {
      assert v + Delivered(e, adc) == v && closes + Closed(s, e) == closes;
    }
  }

  /**
   Window k sums the 30 conversions that ticks 30*k to 30*k + 29 triggered, counting ticks from
   1 after the reconfiguration, except that the first window sums only the 29 of ticks 1 to 29
   on top of whatever the sum already held: the conversion that a closing tick triggers arrives
   after the sums were cleared.
   */
  lemma WindowComposition(s: State, strips: StripFlags, start: State, events: seq<Event>, adc: Converter, k: nat)
    requires Restarted(s, strips, start) && Paced(events) && k < |Closes(start, events)|
    ensures WindowSum(s, Converted(events, adc), Closes(start, events)[k], adc, k)
  {
    RestartedTurns(s, strips, start);
    WindowsFrom(start, strips, events, adc, k);
    ResidueKept(s, start, Converted(events, adc), Closes(start, events)[k], adc, k);
  }

  lemma ResidueKept(s: State, start: State, v: seq<uint16>, c: Close, adc: Converter, k: nat)
    requires WindowSum(start, v, c, adc, k) && start.voltageSum == s.voltageSum && start.currentSum == s.currentSum
    ensures WindowSum(s, v, c, adc, k)
  {
  }

  lemma WindowsFrom(start: State, strips: StripFlags, events: seq<Event>, adc: Converter, k: nat)
    requires Turning(strips, 0, start) && Paced(events) && k < |Closes(start, events)|
    ensures WindowSum(start, Converted(events, adc), Closes(start, events)[k], adc, k)
  {
    SumsFrom(start, strips, events, adc);
  }

  lemma {:induction false} SumBounded(values: seq<uint16>)
    ensures Sum(values) <= 65535 * |values|
  {
    if values == [] {
    } else {
      SumBounded(values[..|values| - 1]);
    }
  }

  /** From power-up no sum wraps: a window consumes the plain sum of its conversions, less than 2^21. */
  lemma WindowExact(modbus: bool, strips: StripFlags, start: State, events: seq<Event>, adc: Converter, k: nat)
    requires Restarted(Boot(modbus), strips, start) && Paced(events) && k < |Closes(start, events)|
    ensures var v := Converted(events, adc);
            && First(k + 1) <= |v|
            && Consumed(Closes(start, events)[k], adc) == Sum(Share(v, k)) < 0x20_0000
  {
    ExactWithoutResidue(Boot(modbus), strips, start, events, adc, k);
  }

  lemma ExactWithoutResidue(s: State, strips: StripFlags, start: State, events: seq<Event>, adc: Converter, k: nat)
    requires Restarted(s, strips, start) && Paced(events) && k < |Closes(start, events)| && Running(s, adc) == 0
    ensures var v := Converted(events, adc);
            && First(k + 1) <= |v|
            && Consumed(Closes(start, events)[k], adc) == Sum(Share(v, k)) < 0x20_0000
  {
    WindowComposition(s, strips, start, events, adc, k);
    var window := Share(Converted(events, adc), k);
    ShareSize(Converted(events, adc), k);
    SumBounded(window);
    NoWrap(Sum(window));
  }

  lemma NoWrap(x: nat)
    requires x <= 65535 * AVERAGE_COUNT
    ensures (0 + x) % U32 == x
  {
  }

  /** The strip whose window is number k after a reconfiguration. */
  function WindowStrip(strips: StripFlags, k: nat): Channel
    requires ActiveList(strips) != []
  {
    ActiveList(strips)[k % |ActiveList(strips)|]
  }

  lemma TriggerWindow(i: nat, k: nat)
    requires First(k) <= i < First(k + 1)
    ensures i / AVERAGE_COUNT == if k > 0 && i == First(k) then k - 1 else k
  {
  }

  lemma PinsAfter(s: State, strips: StripFlags, start: State, before: seq<Event>)
    requires Restarted(s, strips, start) && Steady(before)
    ensures ActiveList(strips) != []
    ensures Run(start, before).pins == Select(WindowStrip(strips, Ticks(before) / AVERAGE_COUNT))
  {
    RoundRobin(s, strips, start, before);
  }

  /**
   Conversion i is triggered while the pins still carry the strip of window i div 30.  So all
   conversions of a window belong to its own strip except, from the second window on, the first:
   that one is triggered on the strip before.
   */
  lemma TriggeredOn(s: State, strips: StripFlags, start: State, before: seq<Event>, k: nat)
    requires Restarted(s, strips, start) && Steady(before)
    requires First(k) <= Ticks(before) < First(k + 1)
    ensures ActiveList(strips) != []
    ensures Run(start, before).pins
         == Select(WindowStrip(strips, if k > 0 && Ticks(before) == First(k) then k - 1 else k))
  {
    PinsAfter(s, strips, start, before);
    TriggerWindow(Ticks(before), k);
  }
}
