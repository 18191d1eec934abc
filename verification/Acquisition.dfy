/**
 The measurement scheduler as a state machine.  Each interrupt handler, and a whole
 reconfiguration, is one step: the timer interrupt outranks both converter interrupts, so
 a conversion result never lands inside a tick.
 */
module Acquisition {
  import opened Binary
  import opened Parameters
  import opened Strips
  import opened Wrappers

  const AVERAGE_COUNT := 30
  const U32 := 0x1_0000_0000
  const INT_LIMIT := 0x8000_0000

  type uint32 = w: int | 0 <= w < 0x1_0000_0000

  /** An averaged voltage and when it was taken. */
  datatype Sample = Sample(value: nat, time: uint32)

  /** The two 32-bit ints of a result: a resistance, `None` where the conversion to an int has no meaning, and a time. */
  datatype Reading = Reading(ohms: Option<nat>, time: int)

  type SampleTable = t: seq<Sample> | |t| == STRIP_COUNT
    witness [Sample(0, 0), Sample(0, 0), Sample(0, 0), Sample(0, 0), Sample(0, 0), Sample(0, 0), Sample(0, 0), Sample(0, 0)]
  type ReadingTable = t: seq<Reading> | |t| == STRIP_COUNT
    witness [Reading(Some(0), 0), Reading(Some(0), 0), Reading(Some(0), 0), Reading(Some(0), 0),
             Reading(Some(0), 0), Reading(Some(0), 0), Reading(Some(0), 0), Reading(Some(0), 0)]

  function NoSamples(): SampleTable { seq(STRIP_COUNT, _ => Sample(0, 0)) }
  function NoReadings(): ReadingTable { seq(STRIP_COUNT, _ => Reading(Some(0), 0)) }

  datatype State = State(
    active: StripFlags,
    stripCount: nat,
    modbus: bool,
    running: bool,           // the tick timer has been started
    indices: seq<Channel>,
    index: nat,
    count: nat,
    voltageSum: uint32,
    currentSum: uint32,
    total: uint32,
    samples: SampleTable,
    readings: ReadingTable,
    clock: uint32,
    pins: Pins,
    faulted: bool)           // indices was read past its end, or a division by zero strips made

  function Boot(modbus: bool): State {
    State(BOOT_LIVE.strips, 0, modbus, false, [], 0, 0, 0, 0, 0, NoSamples(), NoReadings(), 0, Select(0), false)
  }

  datatype Event =
    | Tick
    | Voltage(value: uint16)
    | Current(value: uint16)
    | Millisecond
    | Reconfigure(strips: StripFlags, ready: bool)

  /** 9000 * voltage / current, rounded to the nearest whole ohm. */
  function Rounded(voltage: nat, current: nat): nat
    requires current > 0
  {
    (18000 * voltage + current) / (2 * current)
  }

  /** The same as a 32-bit int, where it has one. */
  function Ohms(voltage: nat, current: nat): Option<nat> {
    if current == 0 then None
    else if Rounded(voltage, current) < INT_LIMIT then Some(Rounded(voltage, current)) else None
  }

  /** A 32-bit word stored as an int of the same bits. */
  function AsInt(word: uint32): int {
    if word < INT_LIMIT then word else word - U32
  }

  /** The current reported for a sweep over n strips. */
  function Averaged(total: nat, n: nat): nat
    requires n > 0
  {
    total / n
  }

  /** calculate_resistance_array: the active strips get new readings, the others keep theirs. */
  function Computed(active: StripFlags, samples: SampleTable, readings: ReadingTable, current: nat): ReadingTable {
    seq(STRIP_COUNT, i requires 0 <= i < STRIP_COUNT =>
      if active[i] then Reading(Ohms(samples[i].value, current), AsInt(samples[i].time)) else readings[i])
  }

  /** A tick with no strips does nothing unless the Modbus interface is selected. */
  predicate Idle(s: State) {
    s.stripCount == 0 && !s.modbus
  }

  /** Whether the next tick closes an averaging window. */
  predicate Closing(s: State) {
    s.running && !s.faulted && !Idle(s) && s.count >= AVERAGE_COUNT - 1
  }

  /** Whether closing the window stays inside the channel list. */
  predicate CloseDefined(s: State) {
    s.index < |s.indices| && s.stripCount > 0 && (s.index + 1) % s.stripCount < |s.indices|
  }

  function CloseWindow(s: State): State
    requires CloseDefined(s)
  {
    var samples := s.samples[s.indices[s.index] := Sample(s.voltageSum / AVERAGE_COUNT, s.clock)];
    var total := (s.total + s.currentSum / AVERAGE_COUNT) % U32;
    var next := (s.index + 1) % s.stripCount;
    s.(samples := samples,
       voltageSum := 0, currentSum := 0, count := 0,
       index := next,
       readings := if next == 0 then Computed(s.active, samples, s.readings, Averaged(total, s.stripCount)) else s.readings,
       total := if next == 0 then 0 else total,
       pins := Select(s.indices[next]))
  }

  /** InitializeAllPeripherals; `ready` tells whether the hot-plate setup, which comes first, succeeds. */
  function Reconfigured(s: State, strips: StripFlags, ready: bool): State {
    var s' := s.(active := strips, stripCount := Count(strips));
    if !ready then s' else
      s'.(pins := Select(FirstActive(strips)), indices := ActiveList(strips),
          index := 0, count := 0, running := true, clock := 0, readings := NoReadings())
  }

  function Step(s: State, e: Event): State {
    if s.faulted then s else
      match e
      case Tick =>
        if !s.running || Idle(s) then s
        else if !Closing(s) then s.(count := s.count + 1)
        else if CloseDefined(s) then CloseWindow(s)
        else s.(faulted := true)
      case Voltage(v) => s.(voltageSum := (s.voltageSum + v) % U32)
      case Current(v) => s.(currentSum := (s.currentSum + v) % U32)
      case Millisecond => s.(clock := (s.clock + 1) % U32)
      case Reconfigure(strips, ready) => Reconfigured(s, strips, ready)
  }

  function Run(s: State, events: seq<Event>): State {
    if events == [] then s else Step(Run(s, events[..|events| - 1]), events[|events| - 1])
  }

  // ----- What a run records -----

  /** A closed window: its channel, the sums consumed and the time. */
  datatype Close = Close(channel: Channel, voltage: uint32, current: uint32, time: uint32)

  function Closed(s: State, e: Event): seq<Close> {
    if e == Tick && Closing(s) && CloseDefined(s)
    then [Close(s.indices[s.index], s.voltageSum, s.currentSum, s.clock)] else []
  }

  function Closes(s: State, events: seq<Event>): seq<Close> {
    if events == [] then [] else
      var n := |events| - 1;
      Closes(s, events[..n]) + Closed(Run(s, events[..n]), events[n])
  }

  function Ticks(events: seq<Event>): nat {
    if events == [] then 0 else Ticks(events[..|events| - 1]) + if events[|events| - 1].Tick? then 1 else 0
  }

  /** The two converters: strip voltage and strip current. */
  datatype Converter = VoltageAdc | CurrentAdc

  /** The values a converter has delivered, oldest first. */
  function Converted(events: seq<Event>, adc: Converter): seq<uint16> {
    if events == [] then [] else
      Converted(events[..|events| - 1], adc) + Delivered(events[|events| - 1], adc)
  }

  function Delivered(e: Event, adc: Converter): seq<uint16> {
    match e
    case Voltage(v) => if adc == VoltageAdc then [v] else []
    case Current(v) => if adc == CurrentAdc then [v] else []
    case _ => []
  }

  function Sum(values: seq<nat>): nat {
    if values == [] then 0 else Sum(values[..|values| - 1]) + values[|values| - 1]
  }

  /** No reconfiguration among the events. */
  predicate Steady(events: seq<Event>) {
    forall i | 0 <= i < |events| :: !events[i].Reconfigure?
  }

  lemma StillFaulted(s: State, e: Event)
    ensures s.faulted ==> Step(s, e).faulted
  {
  }
}
