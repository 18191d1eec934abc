/** The wave buffer as the firmware keeps it: filled and rescaled in place, played by a timer callback. */
module WaveBuffer {
  import opened Binary
  import opened HotPlate
  import opened Parameters
  import opened Reals

  class Device {
    const values: array<int>
    var inputIndex: nat
    var valueArraySize: nat
    var dutyCycle: nat
    var desiredAmplitude: nat
    var timerRunning: bool
    /** A handler has divided by zero or converted what no unsigned integer holds; from then on nothing is claimed. */
    ghost var faulted: bool

    ghost predicate Valid()
      reads this
    {
      values.Length == MAX_ARRAY_SIZE && valueArraySize <= MAX_ARRAY_SIZE && inputIndex < MAX_ARRAY_SIZE
    }

    constructor ()
      ensures Valid() && View() == SILENT && fresh(values)
    {
      values := new int[MAX_ARRAY_SIZE](_ => 0);
      inputIndex, valueArraySize, timerRunning, faulted := 0, 0, false, false;
      dutyCycle, desiredAmplitude := 50, 21;
    }

    ghost function View(): Playback
      reads this
    {
      Playback(inputIndex, valueArraySize, timerRunning, faulted)
    }

    /** scaleDacValues. */
    method ScaleDacValues(size: nat)
      requires Valid() && size <= MAX_ARRAY_SIZE
      modifies values
      ensures forall k | 0 <= k < size :: values[k] == Scaled(old(values[k]), desiredAmplitude)
      ensures forall k | size <= k < MAX_ARRAY_SIZE :: values[k] == old(values[k])
    {
      var maxDacValue := (desiredAmplitude / 7) as real * (16383.0 / 3.3);
      var i := 0;
      while i < size
        invariant 0 <= i <= size
        invariant forall k | 0 <= k < i :: values[k] == Scaled(old(values[k]), desiredAmplitude)
        invariant forall k | i <= k < MAX_ARRAY_SIZE :: values[k] == old(values[k])
      {
        values[i] := (values[i] as real / 16383.0 * maxDacValue).Floor;
        i := i + 1;
      }
    }

    /** The first loop of generateTriangleWave. */
    method Rise(onSize: nat)
      requires Valid() && 0 < onSize <= MAX_ARRAY_SIZE
      modifies values
      ensures forall k | 0 <= k < onSize :: values[k] == TriangleAt(onSize, k)
      ensures forall k | onSize <= k < MAX_ARRAY_SIZE :: values[k] == old(values[k])
    {
      var slope := 16383.0 / onSize as real;
      var i := 0;
      while i < onSize
        invariant 0 <= i <= onSize
        invariant forall k | 0 <= k < i :: values[k] == TriangleAt(onSize, k)
        invariant forall k | i <= k < MAX_ARRAY_SIZE :: values[k] == old(values[k])
      {
        values[i] := (i as real * slope).Floor;
        i := i + 1;
      }
    }

    /** The second loop; the first conversion without a meaning marks the fault. */
    method Fall(onSize: nat, size: nat)
      requires Valid() && 0 < onSize <= size <= MAX_ARRAY_SIZE && !faulted
      modifies values, this`faulted
      ensures faulted <==> !TriangleDefined(onSize, size)
      ensures !faulted ==> forall k | onSize <= k < size :: values[k] == TriangleAt(onSize, k)
      ensures forall k | 0 <= k < onSize || size <= k < MAX_ARRAY_SIZE :: values[k] == old(values[k])
    {
      var slope := 16383.0 / onSize as real;
      var i := onSize;
      while i < size
        invariant onSize <= i <= size && !faulted
        invariant forall j | 0 <= j < i - onSize :: FallAt(onSize, j) > -1.0
        invariant forall k | onSize <= k < i :: values[k] == TriangleAt(onSize, k)
        invariant forall k | 0 <= k < onSize || i <= k < MAX_ARRAY_SIZE :: values[k] == old(values[k])
      {
        var value := 16383.0 - (i - onSize) as real * slope;
        assert value == FallAt(onSize, i - onSize);
        if value <= -1.0 {
          faulted := true;
          return;
        }
        values[i] := value.Floor;
        i := i + 1;
      }
    }

    /** generateTriangleWave. */
    method GenerateTriangleWave(size: nat)
      requires Valid() && size <= MAX_ARRAY_SIZE && !faulted
      modifies values, this`faulted
      ensures faulted <==> !TriangleSound(size, dutyCycle)
      ensures !faulted ==> forall k | 0 <= k < MAX_ARRAY_SIZE ::
                values[k] == if dutyCycle <= 100 && k < size
                             then Scaled(TriangleAt(OnSize(size, dutyCycle), k), desiredAmplitude)
                             else old(values[k])
    {
      if dutyCycle > 100 {
        return;
      }
      var onSize := size * dutyCycle / 100;
      ProductOrder(dutyCycle, 100, size);
      if onSize == 0 {
        faulted := size > 0;
        return;
      }
      Rise(onSize);
      Fall(onSize, size);
      ScaleDacValues(size);
    }

    /** generateSquareWave. */
    method GenerateSquareWave(size: nat)
      requires Valid() && size <= MAX_ARRAY_SIZE
      modifies values
      ensures forall k | 0 <= k < MAX_ARRAY_SIZE ::
                values[k] == if dutyCycle <= 100 && k < size
                             then Scaled(if k < OnSize(size, dutyCycle) then TOP else 0, desiredAmplitude)
                             else old(values[k])
    {
      if dutyCycle > 100 {
        return;
      }
      var onSize := size * dutyCycle / 100;
      ProductOrder(dutyCycle, 100, size);
      var i := 0;
      while i < onSize
        invariant 0 <= i <= onSize
        invariant forall k | 0 <= k < i :: values[k] == TOP
        invariant forall k | i <= k < MAX_ARRAY_SIZE :: values[k] == old(values[k])
      {
        values[i] := 16383;
        i := i + 1;
      }
      i := onSize;
      while i < size
        invariant onSize <= i <= size
        invariant forall k | 0 <= k < i :: values[k] == if k < onSize then TOP else 0
        invariant forall k | i <= k < MAX_ARRAY_SIZE :: values[k] == old(values[k])
      {
        values[i] := 0;
        i := i + 1;
      }
      ScaleDacValues(size);
    }

    /** generateSineWave, given what the conversions of its sine values are. */
    method GenerateSineWave(size: nat, sine: seq<nat>)
      requires Valid() && size <= MAX_ARRAY_SIZE == |sine|
      modifies values
      ensures forall k | 0 <= k < MAX_ARRAY_SIZE ::
                values[k] == if k < size then Scaled(sine[k], desiredAmplitude) else old(values[k])
    {
      var i := 0;
      while i < size
        invariant 0 <= i <= size
        invariant forall k | 0 <= k < i :: values[k] == sine[k]
        invariant forall k | i <= k < MAX_ARRAY_SIZE :: values[k] == old(values[k])
      {
        values[i] := sine[i];
        i := i + 1;
      }
      ScaleDacValues(size);
    }

    /** initialize_dac_hot_plate: the size is set first, even where the wave form or the frequency is then refused. */
    method InitializeDacHotPlate(waveType: nat, frequency: real, sine: seq<nat>) returns (ready: bool)
      requires Valid() && !faulted && frequency > 0.0 && |sine| == MAX_ARRAY_SIZE
      modifies values, this`valueArraySize, this`timerRunning, this`faulted
      ensures Valid()
      ensures ready == Accepted(waveType, frequency)
      ensures View() == Act(old(View()), Setup(SampleCount(frequency), ready,
                                                waveType == 2 ==> TriangleSound(SampleCount(frequency), dutyCycle)))
      ensures ready && !faulted && (waveType == 0 || dutyCycle <= 100) ==>
                forall k | 0 <= k < valueArraySize ::
                  values[k] == Scaled(Raw(waveType, valueArraySize, dutyCycle, sine, k), desiredAmplitude)
      ensures ready && waveType == 1 && dutyCycle <= 100 ==>
                forall k | 0 <= k < valueArraySize ::
                  values[k] == if 100 * (k + 1) <= valueArraySize * dutyCycle then Scaled(16383, desiredAmplitude) else 0
      ensures !ready || (waveType != 0 && dutyCycle > 100) ==> values[..] == old(values[..])
    {
      valueArraySize := SampleCount(frequency);
      if frequency < 0.002 {
        return false;
      }
      if waveType == 0 {
        GenerateSineWave(valueArraySize, sine);
      } else if waveType == 1 {
        GenerateSquareWave(valueArraySize);
        ScaledMonotone(0, 0, desiredAmplitude);
        if dutyCycle <= 100 {
          forall k | 0 <= k < valueArraySize
            ensures values[k] == if 100 * (k + 1) <= valueArraySize * dutyCycle then Scaled(16383, desiredAmplitude) else 0
          {
            SquareSplits(valueArraySize, dutyCycle, k);
          }
        }
      } else if waveType == 2 {
        GenerateTriangleWave(valueArraySize);
      } else {
        return false;
      }
      timerRunning := true;
      ready := true;
    }

    /** dac_update_callback: emits the sample at the index and moves on; without samples it divides by zero. */
    method DacUpdateCallback() returns (sample: int)
      requires Valid() && timerRunning && !faulted
      modifies this`inputIndex, this`faulted
      ensures Valid() && sample == values[old(inputIndex)]
      ensures View() == Act(old(View()), Callback)
    {
      sample := values[inputIndex];
      if valueArraySize == 0 {
        faulted := true;
      } else {
        Remainder(inputIndex + 1, valueArraySize);
        inputIndex := (inputIndex + 1) % valueArraySize;
      }
    }
  }

  lemma Remainder(x: nat, n: nat)
    requires n > 0
    ensures 0 <= x % n < n
  {
  }

  // ----- Playback over any mix of callbacks and setups -----

  /** Whether a wave form and a frequency are taken. */
  predicate Accepted(waveType: nat, frequency: real) {
    waveType <= 2 && frequency >= 0.002
  }

  /** A square wave is on in place k exactly if k + 1 samples are no more than the duty cycle grants. */
  lemma SquareSplits(size: nat, duty: nat, k: nat)
    ensures k < OnSize(size, duty) <==> 100 * (k + 1) <= size * duty
  {
    OnSizeExact(size, duty, OnSize(size, duty));
  }

  /** Sample k of a wave form before scaling. */
  function Raw(waveType: nat, size: nat, duty: nat, sine: seq<nat>, k: nat): int
    requires waveType <= 2 && k < |sine| && (waveType == 2 ==> OnSize(size, duty) > 0)
  {
    if waveType == 0 then sine[k]
    else if waveType == 1 then if k < OnSize(size, duty) then TOP else 0
    else TriangleAt(OnSize(size, duty), k)
  }

  /** A square wave in plain numbers, n being the number of on samples. */
  lemma SquareNumbers(size: nat, duty: nat, amplitude: nat, sine: seq<nat>, k: nat, n: nat)
    requires duty <= 100 && k < size <= |sine| && 100 * n <= size * duty < 100 * n + 100
    ensures Scaled(Raw(1, size, duty, sine, k), amplitude) == if k < n then 163830 * (amplitude / 7) / 33 else 0
  {
    OnSizeExact(size, duty, n);
    ScaledIs(16383, amplitude);
    ScaledMonotone(0, 0, amplitude);
  }

  /** A triangle in plain numbers: up to sample n it rises in proportion, then it falls likewise. */
  lemma TriangleNumbers(size: nat, duty: nat, amplitude: nat, sine: seq<nat>, k: nat, n: nat)
    requires duty <= 100 && k < size <= |sine| && 100 * n <= size * duty < 100 * n + 100
    requires 0 < n && k <= 2 * n
    ensures OnSize(size, duty) == n
    ensures var m := if k < n then k else 2 * n - k;
            Scaled(Raw(2, size, duty, sine, k), amplitude) == 10 * (16383 * m / n) * (amplitude / 7) / 33
  {
    var m := if k < n then k else 2 * n - k;
    OnSizeExact(size, duty, n);
    TriangleIs(n, k);
    Division(16383 * m, n);
    ScaledIs(16383 * m / n, amplitude);
  }

  /** `playing`: the timer that calls back has been started. */
  datatype Playback = Playback(index: nat, size: nat, playing: bool, faulted: bool)

  /** A setup is `ready` if it is carried through, and `defined` if all its conversions are. */
  datatype Action = Callback | Setup(size: nat, ready: bool, defined: bool)

  function Act(p: Playback, a: Action): Playback {
    if p.faulted then p else
      match a
      case Callback =>
        if !p.playing then p
        else if p.size == 0 then p.(faulted := true)
        else p.(index := (p.index + 1) % p.size)
      case Setup(size, ready, defined) =>
        p.(size := size, playing := p.playing || ready, faulted := ready && !defined)
  }

  function Play(p: Playback, actions: seq<Action>): Playback {
    if actions == [] then p else Act(Play(p, actions[..|actions| - 1]), actions[|actions| - 1])
  }

  const SILENT := Playback(0, 0, false, false)

  /** The setups among the actions. */
  function Setups(actions: seq<Action>): seq<Action> {
    if actions == [] then [] else
      Setups(actions[..|actions| - 1]) + if actions[|actions| - 1].Setup? then [actions[|actions| - 1]] else []
  }

  predicate AnyReady(setups: seq<Action>) {
    exists i :: 0 <= i < |setups| && setups[i].Setup? && setups[i].ready
  }

  /** Every setup that is carried through converts only what it can, and leaves a sample to play, if the timer runs. */
  predicate Playable(setups: seq<Action>) {
    setups == [] ||
    var a := setups[|setups| - 1];
    && Playable(setups[..|setups| - 1])
    && (a.Setup? ==> (a.ready ==> a.defined) && (AnyReady(setups) ==> a.size > 0))
  }

  /** Whether a callback has come since the last setup. */
  function Settled(actions: seq<Action>): bool {
    actions != [] && actions[|actions| - 1].Callback?
  }

  lemma AppendAction(setups: seq<Action>, a: Action)
    requires a.Setup?
    ensures AnyReady(setups + [a]) <==> AnyReady(setups) || a.ready
    ensures Playable(setups + [a]) <==> Playable(setups) && (a.ready ==> a.defined) && (AnyReady(setups + [a]) ==> a.size > 0)
  {
    var all := setups + [a];
    assert all[..|setups|] == setups && all[|setups|] == a;
    if AnyReady(setups) {
      var i :| 0 <= i < |setups| && setups[i].Setup? && setups[i].ready;
      assert all[i].ready;
    }
  }

  /** However many setups come in a row, playback goes on where it was. */
  lemma {:induction false} SetupsKeepPlace(p: Playback, setups: seq<Action>)
    requires forall i | 0 <= i < |setups| :: setups[i].Setup?
    ensures Play(p, setups).index == p.index
  {
    if setups == [] {
    } else {
      SetupsKeepPlace(p, setups[..|setups| - 1]);
    }
  }

  /** What playback keeps while its setups are playable. */
  ghost predicate Sounding(p: Playback, setups: seq<Action>) {
    && !p.faulted && p.index < MAX_ARRAY_SIZE && (p.playing <==> AnyReady(setups))
    && (p.playing ==> 0 < p.size <= MAX_ARRAY_SIZE)
  }

  lemma SetupSounds(p: Playback, setups: seq<Action>, a: Action)
    requires Sounding(p, setups) && a.Setup? && a.size <= MAX_ARRAY_SIZE && Playable(setups + [a])
    ensures Sounding(Act(p, a), setups + [a])
  {
    AppendAction(setups, a);
  }

  lemma CallbackSounds(p: Playback, setups: seq<Action>)
    requires Sounding(p, setups)
    ensures Sounding(Act(p, Callback), setups)
    ensures p.playing ==> Act(p, Callback).index < p.size
  {
    if p.playing {
      Remainder(p.index + 1, p.size);
    }
  }

  /**
   While its setups are playable, playback has no fault, its index never leaves the buffer, and
   from the first callback after a setup on it stays below the current size; only the one
   sample that this callback emits may be stale.
   */
  lemma {:induction false} IndexStays(actions: seq<Action>)
    requires forall a <- actions :: a.Setup? ==> a.size <= MAX_ARRAY_SIZE
    requires Playable(Setups(actions))
    ensures Sounding(Play(SILENT, actions), Setups(actions))
    ensures var p := Play(SILENT, actions);
            Settled(actions) && p.playing ==> p.index < p.size
  {
    if actions == [] {
    } else {
      var front, a := actions[..|actions| - 1], actions[|actions| - 1];
      if a.Setup? {
        AppendAction(Setups(front), a);
        IndexStays(front);
        SetupSounds(Play(SILENT, front), Setups(front), a);
      } else {
        assert Setups(actions) == Setups(front);
        IndexStays(front);
        CallbackSounds(Play(SILENT, front), Setups(front));
      }
    }
  }

  function Callbacks(k: nat): seq<Action> {
    seq(k, _ => Callback)
  }

  /** k callbacks in a row move the index on by k, modulo the size, also from an index that a setup left too high. */
  lemma {:induction false} CallbacksAdvance(p: Playback, k: nat)
    requires p.playing && !p.faulted && p.size > 0
    ensures Play(p, Callbacks(k)) == if k == 0 then p else p.(index := (p.index + k) % p.size)
  {
    if k == 0 {
    } else {
      CallbacksAdvance(p, k - 1);
      assert Callbacks(k)[..k - 1] == Callbacks(k - 1);
      NextModulo(p.index + k - 1, p.size);
    }
  }

  // ----- A run of playback that faults, where there is one -----

  lemma {:induction false} SetupsAlone(setups: seq<Action>)
    requires forall a <- setups :: a.Setup?
    ensures Setups(setups) == setups
  {
    if setups == [] {
    } else {
      SetupsAlone(setups[..|setups| - 1]);
    }
  }

  lemma PlayLast(actions: seq<Action>, a: Action)
    ensures Play(SILENT, actions + [a]) == Act(Play(SILENT, actions), a)
    ensures Setups(actions + [a]) == Setups(actions) + if a.Setup? then [a] else []
  {
    assert (actions + [a])[..|actions|] == actions;
  }

  /** After setups alone that were playable, one that is not faults at once or at the next callback. */
  lemma UnplayableFaults(setups: seq<Action>, a: Action)
    requires forall b <- setups :: b.Setup? && b.size <= MAX_ARRAY_SIZE
    requires Playable(setups) && a.Setup? && !Playable(setups + [a])
    ensures Act(Play(SILENT, setups + [a]), Callback).faulted
  {
    SetupsAlone(setups);
    IndexStays(setups);
    AppendAction(setups, a);
    PlayLast(setups, a);
  }

  lemma {:induction false} PlaybackFault(setups: seq<Action>) returns (actions: seq<Action>)
    requires forall a <- setups :: a.Setup? && a.size <= MAX_ARRAY_SIZE
    requires !Playable(setups)
    ensures Setups(actions) == setups && Play(SILENT, actions).faulted
    ensures forall a <- actions :: a.Setup? ==> a in setups
  {
    var front, a := setups[..|setups| - 1], setups[|setups| - 1];
    assert setups == front + [a];
    if Playable(front) {
      UnplayableFaults(front, a);
      SetupsAlone(setups);
      PlayLast(setups, Callback);
      actions := setups + [Callback];
    } else {
      var before := PlaybackFault(front);
      PlayLast(before, a);
      actions := before + [a];
    }
  }

  lemma {:induction false} SetupsAmong(actions: seq<Action>)
    ensures forall a <- actions :: a.Setup? ==> a in Setups(actions)
  {
    if actions == [] {
    } else {
      var front := actions[..|actions| - 1];
      SetupsAmong(front);
      forall a <- actions | a.Setup? ensures a in Setups(actions) {
        assert a in front || a == actions[|actions| - 1];
      }
    }
  }

  /**
   For any list of setups, some mix of exactly those with callbacks converts what has no
   meaning or divides by zero if and only if they are not playable.
   */
  lemma PlaybackFaultsExactly(setups: seq<Action>)
    requires forall a <- setups :: a.Setup? && a.size <= MAX_ARRAY_SIZE
    ensures (exists actions :: Setups(actions) == setups && Play(SILENT, actions).faulted) <==> !Playable(setups)
  {
    if Playable(setups) {
      forall actions | Setups(actions) == setups ensures !Play(SILENT, actions).faulted {
        SetupsAmong(actions);
        IndexStays(actions);
      }
    } else {
      var actions := PlaybackFault(setups);
    }
  }

  /** The indices that k callbacks emit. */
  function Emitted(p: Playback, k: nat): seq<nat>
    decreases k
  {
    if k == 0 then [] else [p.index] + Emitted(Act(p, Callback), k - 1)
  }

  function Range(from: nat, to: nat): seq<nat>
    requires from <= to
  {
    seq(to - from, i requires 0 <= i < to - from => from + i)
  }

  lemma RangeFirst(from: nat, to: nat)
    requires from < to
    ensures Range(from, to) == [from] + Range(from + 1, to)
  {
  }

  lemma {:induction false} EmittedAscends(p: Playback, k: nat)
    requires p.index + k <= p.size && p.size > 0 && p.playing && !p.faulted
    ensures Emitted(p, k) == Range(p.index, p.index + k)
    decreases k
  {
    if k == 0 {
    } else {
      RangeFirst(p.index, p.index + k);
    }
    if k > 1 {
      QuotientIs(p.index + 1, p.size, 0, p.index + 1);
      EmittedAscends(p.(index := p.index + 1), k - 1);
    }
  }

  lemma {:induction false} EmittedWraps(p: Playback, k: nat, more: nat)
    requires p.index < p.size && k == p.size - p.index && more <= p.size && p.playing && !p.faulted
    ensures Emitted(p, k + more) == Range(p.index, p.size) + Range(0, more)
    decreases k
  {
    RangeFirst(p.index, p.size);
    if k == 1 {
      QuotientIs(p.size, p.size, 1, 0);
      EmittedAscends(p.(index := 0), more);
    } else {
      QuotientIs(p.index + 1, p.size, 0, p.index + 1);
      EmittedWraps(p.(index := p.index + 1), k - 1, more);
    }
    Assoc([p.index], Range(p.index + 1, p.size), Range(0, more));
  }

  /** Any `size` callbacks in a row emit every sample exactly once, in cyclic order. */
  lemma EachSampleOnce(p: Playback)
    requires p.index < p.size && p.playing && !p.faulted
    ensures Emitted(p, p.size) == Range(p.index, p.size) + Range(0, p.index)
  {
    EmittedWraps(p, p.size - p.index, p.index);
  }

  // ----- The size that a frequency asks for -----

  /** initialize_dac_hot_plate: 25 samples a second over one period, at most the whole buffer. */
  function SampleCount(frequency: real): nat
    requires frequency > 0.0
  {
    var n := (25.0 / frequency).Floor;
    assert n >= 0;
    if n > MAX_ARRAY_SIZE then MAX_ARRAY_SIZE else n
  }

  /** For a frequency register the buffer gets 25000 div r samples, so it can be played exactly up to 25000 mHz. */
  lemma SampleCountOf(r: uint16)
    requires r > 0
    ensures Milli(r) > 0.0
    ensures SampleCount(Milli(r)) == if 25000 / r > 12500 then 12500 else 25000 / r
    ensures 1 <= SampleCount(Milli(r)) <==> r <= 25000
  {
    assert 25.0 / Milli(r) == 25000.0 / r as real;
    FloorQuotient(25000, r);
    if r > 25000 {
      QuotientIs(25000, r, 0, 25000);
    } else {
      Division(25000, r);
    }
  }
}
