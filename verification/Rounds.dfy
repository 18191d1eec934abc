/** The round robin over the active strips, over every run that follows a reconfiguration. */
module Rounds {
  import opened Binary
  import opened Parameters
  import opened Strips
  import opened Acquisition

  /** The place in a list of n strips t ticks after a reconfiguration. */
  function Place(t: nat, n: nat): nat
    requires n > 0
  {
    t / AVERAGE_COUNT % n
  }

  /** The scheduler's position t ticks after a reconfiguration with the given strips. */
  ghost predicate Turning(strips: StripFlags, t: nat, s: State) {
    && !s.faulted && s.running && s.active == strips
    && s.indices == ActiveList(strips) && s.stripCount == Count(strips) == |s.indices| && s.stripCount > 0
    && s.count == t % AVERAGE_COUNT
    && s.index == Place(t, s.stripCount)
    && s.pins == Select(s.indices[s.index])
  }

  lemma NextTick(t: nat)
    ensures t % AVERAGE_COUNT == AVERAGE_COUNT - 1 ==>
              (t + 1) % AVERAGE_COUNT == 0 && (t + 1) / AVERAGE_COUNT == t / AVERAGE_COUNT + 1
    ensures t % AVERAGE_COUNT < AVERAGE_COUNT - 1 ==>
              (t + 1) % AVERAGE_COUNT == t % AVERAGE_COUNT + 1 && (t + 1) / AVERAGE_COUNT == t / AVERAGE_COUNT
  {
  }

  /** A successful reconfiguration of a scheduler that has not faulted, with at least one strip. */
  ghost predicate Restarted(s: State, strips: StripFlags, start: State) {
    !s.faulted && Count(strips) > 0 && start == Step(s, Reconfigure(strips, true))
  }

  lemma RestartedTurns(s: State, strips: StripFlags, start: State)
    requires Restarted(s, strips, start)
    ensures Turning(strips, 0, start)
    ensures start.readings == NoReadings() && start.clock == 0
    ensures start.total == s.total && start.voltageSum == s.voltageSum && start.currentSum == s.currentSum
    ensures start.samples == s.samples
  {
    ActiveListed(strips);
    QuotientIs(0, Count(strips), 0, 0);
  }

  lemma StepTurns(strips: StripFlags, t: nat, s: State, e: Event)
    requires Turning(strips, t, s) && !e.Reconfigure?
    ensures Turning(strips, if e.Tick? then t + 1 else t, Step(s, e))
    ensures Closed(s, e) == if e.Tick? && t % AVERAGE_COUNT == AVERAGE_COUNT - 1
                            then [Close(s.indices[s.index], s.voltageSum, s.currentSum, s.clock)] else []
  {
    NextTick(t);
    NextModulo(t / AVERAGE_COUNT, s.stripCount);
  }

  lemma Front(events: seq<Event>)
    requires events != [] && Steady(events)
    ensures Steady(events[..|events| - 1]) && !events[|events| - 1].Reconfigure?
  {
  }

  /** The windows close on the strips of the list, one after the other, over and over. */
  ghost predicate InTurn(closes: seq<Close>, list: seq<Channel>) {
    closes == [] ||
    var q := |closes| - 1;
    list != [] && closes[q].channel == list[q % |list|] && InTurn(closes[..q], list)
  }

  /**
   t ticks after a reconfiguration the tick counter is t mod 30, the strip index is t div 30
   mod the number of strips, the select pins carry the strip at that index, and t div 30
   windows have closed, each on the strip that is next in the list.
   */
  lemma RoundRobin(s: State, strips: StripFlags, start: State, events: seq<Event>)
    requires Restarted(s, strips, start) && Steady(events)
    ensures Turning(strips, Ticks(events), Run(start, events))
    ensures |Closes(start, events)| == Ticks(events) / AVERAGE_COUNT
    ensures InTurn(Closes(start, events), ActiveList(strips))
  {
    RestartedTurns(s, strips, start);
    RoundRobinFrom(start, strips, events);
  }

  lemma {:induction false} RoundRobinFrom(start: State, strips: StripFlags, events: seq<Event>)
    requires Turning(strips, 0, start) && Steady(events)
    ensures Turning(strips, Ticks(events), Run(start, events))
    ensures |Closes(start, events)| == Ticks(events) / AVERAGE_COUNT
    ensures InTurn(Closes(start, events), ActiveList(strips))
  {
    if events == [] {
    } else {
      var n := |events| - 1;
      Front(events);
      RoundRobinFrom(start, strips, events[..n]);
      RoundRobinStep(strips, Ticks(events[..n]), Run(start, events[..n]), events[n], Closes(start, events[..n]));
    }
  }

  lemma RoundRobinStep(strips: StripFlags, t: nat, s: State, e: Event, closes: seq<Close>)
    requires Turning(strips, t, s) && !e.Reconfigure?
    requires |closes| == t / AVERAGE_COUNT && InTurn(closes, ActiveList(strips))
    ensures var t' := if e.Tick? then t + 1 else t;
            && Turning(strips, t', Step(s, e))
            && |closes + Closed(s, e)| == t' / AVERAGE_COUNT
            && InTurn(closes + Closed(s, e), ActiveList(strips))
  {
    StepTurns(strips, t, s, e);
    NextTick(t);
    if Closed(s, e) != [] {
      assert (closes + Closed(s, e))[..|closes|] == closes;
    } else {
      assert closes + Closed(s, e) == closes;
    }
  }
}
