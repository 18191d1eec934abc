/**
 Whether the scheduler stays inside its channel list and keeps the multiplexer on the strip
 it is about to record.  Everything hangs on reconfigurations: one whose hot-plate setup fails
 leaves the new strips beside the old channel list, and one that succeeds with no strip leaves
 an empty list.
 */
module Safety {
  import opened Acquisition
  import opened Binary
  import opened Parameters
  import opened Rounds
  import opened Strips
  import opened Wrappers

  /** Once running, the channel list is that of the active strips and the pins carry the current strip. */
  ghost predicate Coherent(s: State) {
    && !s.faulted && s.stripCount == Count(s.active)
    && (s.running ==>
          && s.indices == ActiveList(s.active) && s.stripCount == |s.indices| > 0
          && s.index < s.stripCount && s.count < AVERAGE_COUNT
          && Decode(s.pins) == s.indices[s.index])
  }

  /** A reconfiguration that succeeds and names at least one strip. */
  predicate Sound(e: Event) {
    e.Reconfigure? ==> e.ready && Count(e.strips) > 0
  }

  lemma BootCoherent(modbus: bool)
    ensures Coherent(Boot(modbus))
  {
    assert Count(BOOT_LIVE.strips) == 0 by {
      CountNone(BOOT_LIVE.strips);
    }
  }

  lemma CloseCoherent(s: State)
    requires Coherent(s) && s.running
    ensures CloseDefined(s) && Coherent(CloseWindow(s))
  {
    Remainder(s.index + 1, s.stripCount);
    SelectDecodes(s.indices[(s.index + 1) % s.stripCount]);
  }

  lemma Remainder(x: nat, n: nat)
    requires n > 0
    ensures 0 <= x % n < n
  {
  }

  lemma StepCoherent(s: State, e: Event)
    requires Coherent(s) && Sound(e)
    ensures Coherent(Step(s, e))
  {
    match e
    case Reconfigure(strips, _) =>
      ActiveListed(strips);
      SelectDecodes(ActiveList(strips)[0]);
    case Tick =>
      if Closing(s) {
        CloseCoherent(s);
      }
    case _ =>
  }

  /**
   In every run whose reconfigurations succeed and name a strip, no access leaves the channel
   list, and the select pins always carry the strip that is recorded next.
   */
  lemma {:induction false} StaysCoherent(s: State, events: seq<Event>)
    requires Coherent(s) && forall i | 0 <= i < |events| :: Sound(events[i])
    ensures Coherent(Run(s, events))
  {
    if events == [] {
    } else {
      var n := |events| - 1;
      StaysCoherent(s, events[..n]);
      StepCoherent(Run(s, events[..n]), events[n]);
    }
  }

  lemma CoherentFromBoot(modbus: bool, events: seq<Event>)
    requires forall i | 0 <= i < |events| :: Sound(events[i])
    ensures Coherent(Run(Boot(modbus), events))
  {
    BootCoherent(modbus);
    StaysCoherent(Boot(modbus), events);
  }

  /** A reconfiguration that fails leaves the list, the place in it, the pins and everything measured as they were. */
  lemma FailureKeeps(s: State, strips: StripFlags)
    requires !s.faulted
    ensures var s' := Step(s, Reconfigure(strips, false));
            && s'.active == strips && s'.stripCount == |ActiveList(strips)| && !s'.faulted
            && s'.running == s.running && s'.indices == s.indices && s'.index == s.index && s'.count == s.count
            && s'.pins == s.pins && s'.clock == s.clock && s'.total == s.total
            && s'.voltageSum == s.voltageSum && s'.currentSum == s.currentSum
            && s'.samples == s.samples && s'.readings == s.readings
  {
    ActiveListed(strips);
  }

  /** A reconfiguration that fails keeps a running scheduler coherent exactly when it changes no strip. */
  lemma FailureCoherent(s: State, strips: StripFlags)
    requires Coherent(s) && s.running
    ensures Coherent(Step(s, Reconfigure(strips, false))) <==> strips == s.active
  {
    if Coherent(Step(s, Reconfigure(strips, false))) {
      ActiveListInjective(strips, s.active);
    }
  }

  // ----- What a failed reconfiguration leads to -----

  function TickRun(k: nat): (events: seq<Event>)
    ensures |events| == k && forall e <- events :: e == Tick
  {
    seq(k, _ => Tick)
  }

  /** The strip count still fits the channel list, or ticks do nothing. */
  ghost predicate Fits(s: State) {
    && !s.faulted && s.running && s.index < |s.indices|
    && (Idle(s) || 0 < s.stripCount <= |s.indices|)
  }

  lemma StepFits(s: State, e: Event)
    requires Fits(s) && !e.Reconfigure?
    ensures Fits(Step(s, e))
  {
    if s.stripCount > 0 {
      Remainder(s.index + 1, s.stripCount);
    }
  }

  lemma {:induction false} RunFits(s: State, events: seq<Event>)
    requires Fits(s) && Steady(events)
    ensures Fits(Run(s, events))
  {
    if events == [] {
    } else {
      var n := |events| - 1;
      Front(events);
      RunFits(s, events[..n]);
      StepFits(Run(s, events[..n]), events[n]);
    }
  }

  /** A scheduler whose strip count does not fit its channel list. */
  ghost predicate Overlong(s: State) {
    && !s.faulted && s.running && s.index <= |s.indices| && s.count < AVERAGE_COUNT
    && !Idle(s) && (s.stripCount == 0 || s.stripCount > |s.indices|)
  }

  /** Ticks alone drive it out of the list; the result is the number of ticks that do. */
  lemma {:induction false} OverlongFaults(s: State) returns (k: nat)
    requires Overlong(s)
    ensures Run(s, TickRun(k)).faulted
    decreases |s.indices| - s.index, AVERAGE_COUNT - s.count
  {
    var s' := Step(s, Tick);
    if s'.faulted {
      k := 1;
      assert TickRun(1)[..0] == [];
    } else {
      if Closing(s) {
        QuotientIs(s.index + 1, s.stripCount, 0, s.index + 1);
      }
      var j := OverlongFaults(s');
      k := j + 1;
      RunFirst(s, Tick, TickRun(j));
      assert TickRun(k) == [Tick] + TickRun(j);
    }
  }

  lemma {:induction false} RunFirst(s: State, e: Event, events: seq<Event>)
    ensures Run(s, [e] + events) == Run(Step(s, e), events)
  {
    var all := [e] + events;
    if events == [] {
      assert all[..0] == [] && all[0] == e;
    } else {
      var n := |events| - 1;
      assert all[..|all| - 1] == [e] + events[..n];
      RunFirst(s, e, events[..n]);
    }
  }

  /**
   After a failed reconfiguration of a coherent, running scheduler in Modbus mode, some run of
   ticks and conversions reads outside the channel list or divides by zero strips, unless the
   new strips are at least one and no more than the channel list holds.
   */
  lemma FailureFaults(s: State, strips: StripFlags)
    requires Coherent(s) && s.running && s.modbus
    ensures (exists events :: Steady(events) && Run(Step(s, Reconfigure(strips, false)), events).faulted)
       <==> !(0 < Count(strips) <= Count(s.active))
  {
    var s' := Step(s, Reconfigure(strips, false));
    if 0 < Count(strips) <= Count(s.active) {
      forall events | Steady(events) ensures !Run(s', events).faulted {
        RunFits(s', events);
      }
    } else {
      var k := OverlongFaults(s');
      assert Steady(TickRun(k));
    }
  }

  // ----- Which reconfigurations the scheduler survives, over whole runs -----

  /** What a reconfiguration asks for, and whether its hot-plate setup succeeds. */
  datatype Setting = Setting(strips: StripFlags, ready: bool)

  /** The reconfigurations among the events. */
  function Settings(events: seq<Event>): seq<Setting> {
    if events == [] then [] else Settings(events[..|events| - 1]) + Asked(events[|events| - 1])
  }

  function Asked(e: Event): seq<Setting> {
    match e
    case Reconfigure(strips, ready) => [Setting(strips, ready)]
    case _ => []
  }

  /** The strips of the last reconfiguration that succeeded, which made the channel list; `None` while the timer stands. */
  function Mask(settings: seq<Setting>): Option<StripFlags> {
    if settings == [] then None else
      var last := settings[|settings| - 1];
      if last.ready then Some(last.strips) else Mask(settings[..|settings| - 1])
  }

  /** The strips asked for last fit the channel list; without the Modbus interface there may also be none. */
  predicate Fitting(settings: seq<Setting>, modbus: bool) {
    settings != [] && Mask(settings).Some? ==>
      var n := Count(settings[|settings| - 1].strips);
      (n == 0 && !modbus) || 0 < n <= Count(Mask(settings).value)
  }

  /** That holds after every reconfiguration. */
  predicate Harmless(settings: seq<Setting>, modbus: bool) {
    settings == [] || (Harmless(settings[..|settings| - 1], modbus) && Fitting(settings, modbus))
  }

  /** The strip counts fit, and the pins carry the current strip of the channel list. */
  ghost predicate Guarded(s: State, settings: seq<Setting>) {
    && !s.faulted && (s.running <==> Mask(settings).Some?)
    && (settings != [] ==> s.stripCount == Count(settings[|settings| - 1].strips))
    && (s.running ==>
          && s.indices == ActiveList(Mask(settings).value)
          && (Idle(s) || 0 < s.stripCount <= |s.indices|)
          && (s.indices != [] ==> s.index < |s.indices| && Decode(s.pins) == s.indices[s.index]))
  }

  lemma AppendSetting(settings: seq<Setting>, a: Setting)
    ensures var all := settings + [a];
            && Mask(all) == (if a.ready then Some(a.strips) else Mask(settings))
            && (forall modbus :: Harmless(all, modbus) <==> Harmless(settings, modbus) && Fitting(all, modbus))
  {
    assert (settings + [a])[..|settings|] == settings;
  }

  lemma TickGuards(s: State, settings: seq<Setting>)
    requires Guarded(s, settings)
    ensures Guarded(Step(s, Tick), settings) && (Closing(s) ==> CloseDefined(s))
  {
    if Closing(s) {
      Remainder(s.index + 1, s.stripCount);
      SelectDecodes(s.indices[(s.index + 1) % s.stripCount]);
    }
  }

  lemma ReconfigureGuards(s: State, settings: seq<Setting>, a: Setting)
    requires Guarded(s, settings) && Fitting(settings + [a], s.modbus)
    ensures Guarded(Step(s, Reconfigure(a.strips, a.ready)), settings + [a])
  {
    AppendSetting(settings, a);
    ActiveListed(a.strips);
    if Mask(settings).Some? {
      ActiveListed(Mask(settings).value);
    }
    if ActiveList(a.strips) != [] {
      SelectDecodes(ActiveList(a.strips)[0]);
    }
  }

  lemma StepGuards(s: State, e: Event, settings: seq<Setting>)
    requires Guarded(s, settings)
    requires e.Reconfigure? ==> Fitting(settings + Asked(e), s.modbus)
    ensures Guarded(Step(s, e), settings + Asked(e))
  {
    match e
    case Reconfigure(strips, ready) =>
      ReconfigureGuards(s, settings, Setting(strips, ready));
    case Tick =>
      TickGuards(s, settings);
      assert settings + [] == settings;
    case _ =>
      assert settings + [] == settings;
  }

  lemma BootGuarded(modbus: bool)
    ensures Guarded(Boot(modbus), [])
  {
  }

  lemma StepKeepsMode(s: State, e: Event)
    ensures Step(s, e).modbus == s.modbus && (s.faulted ==> Step(s, e).faulted)
  {
  }

  /** A run whose reconfigurations are harmless never faults, and the pins carry a strip of the list throughout. */
  lemma {:induction false} RunGuards(modbus: bool, events: seq<Event>)
    requires Harmless(Settings(events), modbus)
    ensures Guarded(Run(Boot(modbus), events), Settings(events)) && Run(Boot(modbus), events).modbus == modbus
  {
    if events == [] {
      BootGuarded(modbus);
    } else {
      var front, e := events[..|events| - 1], events[|events| - 1];
      match e {
        case Reconfigure(strips, ready) =>
          AppendSetting(Settings(front), Setting(strips, ready));
        case _ =>
          assert Settings(front) + [] == Settings(front);
      }
      RunGuards(modbus, front);
      StepGuards(Run(Boot(modbus), front), e, Settings(front));
      StepKeepsMode(Run(Boot(modbus), front), e);
    }
  }

  // ----- A run that faults, where there is one -----

  /** The reconfigurations alone, with nothing in between. */
  function Alone(settings: seq<Setting>): seq<Event> {
    seq(|settings|, i requires 0 <= i < |settings| => Reconfigure(settings[i].strips, settings[i].ready))
  }

  lemma {:induction false} SettingsAppend(a: seq<Event>, b: seq<Event>)
    ensures Settings(a + b) == Settings(a) + Settings(b)
  {
    if b == [] {
      assert a + b == a && Settings(a) + [] == Settings(a);
    } else {
      var n := |b| - 1;
      assert (a + b)[..|a + b| - 1] == a + b[..n];
      SettingsAppend(a, b[..n]);
      Assoc(Settings(a), Settings(b[..n]), Asked(b[n]));
    }
  }

  lemma {:induction false} SettingsOfTicks(k: nat)
    ensures Settings(TickRun(k)) == []
  {
    if k == 0 {
    } else {
      assert TickRun(k)[..k - 1] == TickRun(k - 1);
      SettingsOfTicks(k - 1);
    }
  }

  lemma {:induction false} RunAppend(s: State, a: seq<Event>, b: seq<Event>)
    ensures Run(s, a + b) == Run(Run(s, a), b)
  {
    if b == [] {
      assert a + b == a;
    } else {
      assert (a + b)[..|a + b| - 1] == a + b[..|b| - 1];
      RunAppend(s, a, b[..|b| - 1]);
    }
  }

  /** The scheduler after reconfigurations with no tick in between. */
  ghost predicate Untouched(s: State, settings: seq<Setting>) {
    && !s.faulted && s.index == s.count == 0 && (s.running <==> Mask(settings).Some?)
    && (settings != [] ==> s.stripCount == Count(settings[|settings| - 1].strips))
    && (s.running ==> s.indices == ActiveList(Mask(settings).value))
  }

  lemma UntouchedNext(s: State, settings: seq<Setting>, a: Setting)
    requires Untouched(s, settings)
    ensures Untouched(Step(s, Reconfigure(a.strips, a.ready)), settings + [a])
  {
    AppendSetting(settings, a);
  }

  lemma AloneNext(settings: seq<Setting>, a: Setting)
    ensures var all := Alone(settings + [a]);
            all[..|all| - 1] == Alone(settings) && all[|all| - 1] == Reconfigure(a.strips, a.ready)
  {
    assert Alone(settings + [a])[..|settings|] == Alone(settings);
  }

  lemma {:induction false} AloneUntouched(modbus: bool, settings: seq<Setting>)
    ensures Untouched(Run(Boot(modbus), Alone(settings)), settings)
    ensures Run(Boot(modbus), Alone(settings)).modbus == modbus
  {
    if settings == [] {
    } else {
      var front, a := settings[..|settings| - 1], settings[|settings| - 1];
      AloneUntouched(modbus, front);
      assert settings == front + [a];
      AloneNext(front, a);
      UntouchedNext(Run(Boot(modbus), Alone(front)), front, a);
      StepKeepsMode(Run(Boot(modbus), Alone(front)), Reconfigure(a.strips, a.ready));
    }
  }

  lemma {:induction false} SettingsAlone(settings: seq<Setting>)
    ensures Settings(Alone(settings)) == settings
  {
    if settings == [] {
    } else {
      var front, a := settings[..|settings| - 1], settings[|settings| - 1];
      assert settings == front + [a];
      AloneNext(front, a);
      SettingsAlone(front);
    }
  }

  /** A run of nothing but reconfigurations is told by them. */
  lemma {:induction false} ReconfiguresAlone(events: seq<Event>)
    requires forall e <- events :: e.Reconfigure?
    ensures events == Alone(Settings(events))
  {
    if events == [] {
    } else {
      var front, e := events[..|events| - 1], events[|events| - 1];
      assert e in events;
      ReconfiguresAlone(front);
      AloneNext(Settings(front), Asked(e)[0]);
      var all := Alone(Settings(events));
      assert all == all[..|all| - 1] + [e];
    }
  }

  lemma MisfitOverlong(s: State, settings: seq<Setting>)
    requires Untouched(s, settings) && !Fitting(settings, s.modbus)
    ensures Overlong(s)
  {
    ActiveListed(Mask(settings).value);
  }

  lemma MisfitNext(modbus: bool, settings: seq<Setting>, a: Setting)
    requires Harmless(settings, modbus) && !Harmless(settings + [a], modbus)
    ensures Overlong(Run(Boot(modbus), Alone(settings + [a])))
  {
    AppendSetting(settings, a);
    AloneUntouched(modbus, settings + [a]);
    MisfitOverlong(Run(Boot(modbus), Alone(settings + [a])), settings + [a]);
  }

  /** Reconfigurations that are not harmless have a run that faults. */
  lemma {:induction false} FaultHappens(modbus: bool, settings: seq<Setting>) returns (events: seq<Event>)
    requires !Harmless(settings, modbus)
    ensures Settings(events) == settings && Run(Boot(modbus), events).faulted
  {
    var front, a := settings[..|settings| - 1], settings[|settings| - 1];
    assert settings == front + [a];
    if Harmless(front, modbus) {
      var s := Run(Boot(modbus), Alone(settings));
      MisfitNext(modbus, front, a);
      SettingsAlone(settings);
      var k := OverlongFaults(s);
      events := Alone(settings) + TickRun(k);
      RunAppend(Boot(modbus), Alone(settings), TickRun(k));
      SettingsAppend(Alone(settings), TickRun(k));
      SettingsOfTicks(k);
    } else {
      var before := FaultHappens(modbus, front);
      events := before + [Reconfigure(a.strips, a.ready)];
      assert events[..|before|] == before;
    }
  }

  /**
   For any list of reconfigurations, some run from power-up that makes exactly those reads
   outside the channel list or divides by zero strips if and only if, after one of them, the
   timer runs and the strips asked for last are none or more than the channel list holds.
   */
  lemma FaultsExactly(modbus: bool, settings: seq<Setting>)
    ensures (exists events :: Settings(events) == settings && Run(Boot(modbus), events).faulted)
       <==> !Harmless(settings, modbus)
  {
    if Harmless(settings, modbus) {
      forall events | Settings(events) == settings ensures !Run(Boot(modbus), events).faulted {
        RunGuards(modbus, events);
      }
    } else {
      var events := FaultHappens(modbus, settings);
    }
  }
}
