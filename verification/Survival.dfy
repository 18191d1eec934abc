/**
 Exactly which requests keep scheduler and hot plate without a fault, however interrupts fall
 between them, told from the registers they put in force.  The faults are an access outside the
 channel list, a division by zero strips or samples, and the conversion of a wave sample that no
 unsigned integer holds; the conversion of a resistance is not among them.
 */
module Survival {
  import opened Acquisition
  import opened Binary
  import opened HotPlateSessions
  import opened Instrument
  import opened Modbus
  import opened Parameters
  import opened Replies
  import opened Safety
  import opened Strips
  import HotPlate
  import Sessions
  import WaveBuffer

  // ----- Safe from power-up -----

  /** While the settings are harmless, the scheduler has no fault. */
  lemma SchedulerSafe(happenings: seq<Happening>)
    requires Harmless(FrameSettings(Frames(happenings)), true)
    ensures Guarded(Evolved(PowerUp(), happenings).scheduler, FrameSettings(Frames(happenings)))
    ensures Evolved(PowerUp(), happenings).scheduler.modbus
  {
    PartsRun(PowerUp(), happenings);
    FramesDecide(happenings);
    RunGuards(true, Events(PowerUp(), happenings));
  }

  lemma PlateSafe(happenings: seq<Happening>)
    requires WaveBuffer.Playable(FrameSetups(Frames(happenings)))
    ensures !Evolved(PowerUp(), happenings).plate.faulted
  {
    var actions := Actions(PowerUp(), happenings);
    PartsRun(PowerUp(), happenings);
    FramesDecide(happenings);
    WaveBuffer.SetupsAmong(actions);
    WaveBuffer.IndexStays(actions);
  }

  // ----- A run that faults, where there is one -----

  /** The requests alone, with nothing in between. */
  function Only(frames: seq<Frame>): seq<Happening> {
    seq(|frames|, i requires 0 <= i < |frames| => Request(frames[i], 0))
  }

  function Ticking(k: nat): seq<Happening> {
    if k == 0 then [] else Ticking(k - 1) + [Interrupted(Tick)]
  }

  lemma AppendHappening(happenings: seq<Happening>, h: Happening)
    ensures var all := happenings + [h];
            && Evolved(PowerUp(), all) == Next(Evolved(PowerUp(), happenings), h)
            && Frames(all) == Frames(happenings) + Framed(h)
            && Events(PowerUp(), all) == Events(PowerUp(), happenings) + Driven(Evolved(PowerUp(), happenings), h)
            && Actions(PowerUp(), all) == Actions(PowerUp(), happenings) + Played(Evolved(PowerUp(), happenings), h)
  {
    assert (happenings + [h])[..|happenings|] == happenings;
  }

  lemma OnlyNext(frames: seq<Frame>, frame: Frame)
    ensures Only(frames + [frame]) == Only(frames) + [Request(frame, 0)]
  {
  }

  lemma {:induction false} OnlyFrames(frames: seq<Frame>)
    ensures Frames(Only(frames)) == frames
    ensures forall e <- Events(PowerUp(), Only(frames)) :: e.Reconfigure?
    ensures forall a <- Actions(PowerUp(), Only(frames)) :: a.Setup?
  {
    if frames == [] {
    } else {
      var front, frame := frames[..|frames| - 1], frames[|frames| - 1];
      assert frames == front + [frame];
      OnlyFrames(front);
      OnlyNext(front, frame);
      AppendHappening(Only(front), Request(frame, 0));
      AtMostOne(Evolved(PowerUp(), Only(front)), Request(frame, 0));
    }
  }

  /** After the requests alone, scheduler and hot plate have gone through their settings and nothing else. */
  lemma OnlySettings(frames: seq<Frame>)
    ensures Evolved(PowerUp(), Only(frames)).scheduler == Acquisition.Run(Boot(true), Alone(FrameSettings(frames)))
    ensures Evolved(PowerUp(), Only(frames)).plate == WaveBuffer.Play(WaveBuffer.SILENT, FrameSetups(frames))
  {
    OnlyFrames(frames);
    PartsRun(PowerUp(), Only(frames));
    FramesDecide(Only(frames));
    ReconfiguresAlone(Events(PowerUp(), Only(frames)));
    WaveBuffer.SetupsAlone(Actions(PowerUp(), Only(frames)));
  }

  lemma {:induction false} TicksOnly(happenings: seq<Happening>, k: nat)
    ensures Frames(happenings + Ticking(k)) == Frames(happenings)
    ensures Evolved(PowerUp(), happenings + Ticking(k)).scheduler
         == Acquisition.Run(Evolved(PowerUp(), happenings).scheduler, TickRun(k))
  {
    if k == 0 {
      assert happenings + [] == happenings;
    } else {
      TicksOnly(happenings, k - 1);
      Assoc(happenings, Ticking(k - 1), [Interrupted(Tick)]);
      AppendHappening(happenings + Ticking(k - 1), Interrupted(Tick));
      assert TickRun(k)[..k - 1] == TickRun(k - 1);
    }
  }

  lemma FaultsStay(w: World, h: Happening)
    ensures w.scheduler.faulted ==> Next(w, h).scheduler.faulted
    ensures w.plate.faulted ==> Next(w, h).plate.faulted
  {
  }

  lemma {:induction false} SchedulerFault(frames: seq<Frame>) returns (happenings: seq<Happening>)
    requires !Harmless(FrameSettings(frames), true)
    ensures Frames(happenings) == frames && Evolved(PowerUp(), happenings).scheduler.faulted
  {
    if frames == [] {
      assert false;
    } else {
      var front, frame := frames[..|frames| - 1], frames[|frames| - 1];
      assert frames == front + [frame];
      if Harmless(FrameSettings(front), true) {
        MisfitAfter(front, frame);
        OnlyFrames(frames);
        OnlySettings(frames);
        var k := OverlongFaults(Evolved(PowerUp(), Only(frames)).scheduler);
        TicksOnly(Only(frames), k);
        happenings := Only(frames) + Ticking(k);
      } else {
        var before := SchedulerFault(front);
        AppendHappening(before, Request(frame, 0));
        FaultsStay(Evolved(PowerUp(), before), Request(frame, 0));
        happenings := before + [Request(frame, 0)];
      }
    }
  }

  lemma MisfitAfter(front: seq<Frame>, frame: Frame)
    requires Harmless(FrameSettings(front), true) && !Harmless(FrameSettings(front + [frame]), true)
    ensures Overlong(Acquisition.Run(Boot(true), Alone(FrameSettings(front + [frame]))))
  {
    PlainNext(front, frame);
    assert FrameSettings(front) + [] == FrameSettings(front);
    if GrantedWrite(frame) {
      MisfitNext(true, FrameSettings(front), SettingOf(Sessions.EffectiveRegisters(Plain(front + [frame]))));
    }
  }

  lemma {:induction false} PlateFault(frames: seq<Frame>) returns (happenings: seq<Happening>)
    requires !WaveBuffer.Playable(FrameSetups(frames))
    ensures Frames(happenings) == frames && Evolved(PowerUp(), happenings).plate.faulted
  {
    if frames == [] {
      assert false;
    } else {
      var front, frame := frames[..|frames| - 1], frames[|frames| - 1];
      assert frames == front + [frame];
      if WaveBuffer.Playable(FrameSetups(front)) {
        UnplayableAfter(front, frame);
        OnlyFrames(frames);
        OnlySettings(frames);
        AppendHappening(Only(frames), WaveTick);
        happenings := Only(frames) + [WaveTick];
      } else {
        var before := PlateFault(front);
        AppendHappening(before, Request(frame, 0));
        FaultsStay(Evolved(PowerUp(), before), Request(frame, 0));
        happenings := before + [Request(frame, 0)];
      }
    }
  }

  lemma SetupsSized(inForce: seq<HoldingRegisters>)
    ensures forall a <- SetupsOf(inForce) :: a.Setup? && a.size <= HotPlate.MAX_ARRAY_SIZE
  {
  }

  lemma UnplayableNext(setups: seq<WaveBuffer.Action>, added: seq<WaveBuffer.Action>)
    requires forall a <- setups :: a.Setup? && a.size <= HotPlate.MAX_ARRAY_SIZE
    requires |added| <= 1 && forall a <- added :: a.Setup?
    requires WaveBuffer.Playable(setups) && !WaveBuffer.Playable(setups + added)
    ensures WaveBuffer.Act(WaveBuffer.Play(WaveBuffer.SILENT, setups + added), WaveBuffer.Callback).faulted
  {
    assert added == [] ==> setups + added == setups;
    if added != [] {
      assert added == [added[0]];
      WaveBuffer.UnplayableFaults(setups, added[0]);
    }
  }

  lemma UnplayableAfter(front: seq<Frame>, frame: Frame)
    requires WaveBuffer.Playable(FrameSetups(front)) && !WaveBuffer.Playable(FrameSetups(front + [frame]))
    ensures WaveBuffer.Act(WaveBuffer.Play(WaveBuffer.SILENT, FrameSetups(front + [frame])), WaveBuffer.Callback).faulted
  {
    var added := if GrantedWrite(frame) then [SetupOf(Sessions.EffectiveRegisters(Plain(front + [frame])))] else [];
    PlainNext(front, frame);
    SetupsSized(InForce(Plain(front)));
    UnplayableNext(FrameSetups(front), added);
  }

  // ----- Exactly which requests the instrument survives -----

  /**
   For any list of requests from power-up, some way for interrupts to fall between them drives
   the scheduler outside its channel list, or to a division by zero strips, if and only if the
   settings they put in force are not harmless.
   */
  lemma SchedulerFaultsExactly(frames: seq<Frame>)
    ensures (exists happenings :: Frames(happenings) == frames && Evolved(PowerUp(), happenings).scheduler.faulted)
       <==> !Harmless(FrameSettings(frames), true)
  {
    if Harmless(FrameSettings(frames), true) {
      forall happenings | Frames(happenings) == frames ensures !Evolved(PowerUp(), happenings).scheduler.faulted {
        SchedulerSafe(happenings);
      }
    } else {
      var happenings := SchedulerFault(frames);
    }
  }

  /**
   Likewise some way converts a sample that has no meaning, or has the wave timer divide by
   zero, if and only if the setups they bring about are not playable.
   */
  lemma PlateFaultsExactly(frames: seq<Frame>)
    ensures (exists happenings :: Frames(happenings) == frames && Evolved(PowerUp(), happenings).plate.faulted)
       <==> !WaveBuffer.Playable(FrameSetups(frames))
  {
    if WaveBuffer.Playable(FrameSetups(frames)) {
      forall happenings | Frames(happenings) == frames ensures !Evolved(PowerUp(), happenings).plate.faulted {
        PlateSafe(happenings);
      }
    } else {
      var happenings := PlateFault(frames);
    }
  }

  /**
   However interrupts fall, neither scheduler nor hot plate meets one of these faults, if and
   only if the settings are harmless and the setups playable.
   */
  lemma NothingFaultsExactly(frames: seq<Frame>)
    ensures (forall happenings | Frames(happenings) == frames ::
               !Evolved(PowerUp(), happenings).scheduler.faulted && !Evolved(PowerUp(), happenings).plate.faulted)
       <==> Harmless(FrameSettings(frames), true) && WaveBuffer.Playable(FrameSetups(frames))
  {
    SchedulerFaultsExactly(frames);
    PlateFaultsExactly(frames);
  }

  lemma {:induction false} LastInForce(requests: seq<Sessions.Request>)
    ensures InForce(requests) != [] ==> InForce(requests)[|InForce(requests)| - 1] == Sessions.EffectiveRegisters(requests)
  {
    if requests == [] {
    } else if GrantedWrite(requests[|requests| - 1].frame) {
    } else {
      var front := requests[..|requests| - 1];
      LastInForce(front);
      assert Sessions.EffectiveRegisters(requests) == Sessions.EffectiveRegisters(front);
    }
  }

  /**
   From power-up to the pins: however requests and interrupts mix, while the settings in force
   are harmless the pins always carry a strip of the last successful setup; if the last granted
   write succeeded, that is a strip whose bit is set in the last nonzero register 6 that was in
   effect at a granted write.
   */
  lemma PowerUpToPins(happenings: seq<Happening>)
    requires Harmless(FrameSettings(Frames(happenings)), true)
    ensures var s, settings := Evolved(PowerUp(), happenings).scheduler, FrameSettings(Frames(happenings));
            && !s.faulted && (s.running <==> Mask(settings).Some?)
            && (s.running ==> Mask(settings).value[Decode(s.pins)])
            && (settings != [] && settings[|settings| - 1].ready ==>
                  s.running && Digits(Sessions.Effective(Requests(happenings), 6), STRIP_COUNT)[Decode(s.pins)])
  {
    var s, settings := Evolved(PowerUp(), happenings).scheduler, FrameSettings(Frames(happenings));
    SchedulerSafe(happenings);
    PartsFollow(happenings);
    FramesDecide(happenings);
    LastInForce(Requests(happenings));
    if s.running {
      ActiveListed(Mask(settings).value);
      assert s.indices[s.index] in ActiveList(Mask(settings).value);
    }
  }

  // ----- Requests that bring faults about -----

  /** A single write; its check value, which nobody looks at, is left at 0. */
  function Single(register: byte, value: uint16): Frame {
    [ADDRESS, WRITE_SINGLE, 0, register, value / 256, value % 256, 0, 0]
  }

  /** Register r in effect after one more single write. */
  function Coming(frames: seq<Frame>, register: byte, value: uint16, r: nat): uint16
    requires r < HOLDING_COUNT
  {
    var held := if r == register then value else Sessions.Held(Plain(frames), r);
    if held != 0 then held else Sessions.Effective(Plain(frames), r)
  }

  lemma AfterSingle(frames: seq<Frame>, register: byte, value: uint16, r: nat)
    requires register < HOLDING_COUNT && r < HOLDING_COUNT
    ensures GrantedWrite(Single(register, value))
    ensures var before, after := Plain(frames), Plain(frames + [Single(register, value)]);
            && Sessions.Held(after, r) == (if r == register then value else Sessions.Held(before, r))
            && Sessions.Effective(after, r) == Coming(frames, register, value, r)
  {
    var after := Plain(frames + [Single(register, value)]);
    assert after[..|frames|] == Plain(frames);
    assert after[|frames|].frame == Single(register, value);
    assert Word(0, register) == register && Word(value / 256, value % 256) == value;
  }

  predicate NoneSet(flags: seq<bool>) {
    forall i | 0 <= i < |flags| :: !flags[i]
  }

  lemma NoneSetCons(b: bool, flags: seq<bool>)
    ensures NoneSet([b] + flags) <==> !b && NoneSet(flags)
  {
    if NoneSet([b] + flags) {
      assert !([b] + flags)[0];
      forall i | 0 <= i < |flags| ensures !flags[i] {
        assert flags[i] == ([b] + flags)[i + 1];
      }
    }
  }

  lemma {:induction false} DigitsNone(x: nat, n: nat)
    ensures Pow2(n) > 0
    ensures NoneSet(Digits(x, n)) <==> x % Pow2(n) == 0
  {
    if n == 0 {
    } else {
      DigitsNone(x / 2, n - 1);
      HalfRemainder(x, Pow2(n - 1));
      NoneSetCons(x % 2 == 1, Digits(x / 2, n - 1));
    }
  }

  lemma HalfRemainder(x: nat, p: nat)
    requires p > 0
    ensures x % (2 * p) == 2 * (x / 2 % p) + x % 2
  {
    var q, r := x / 2 / p, x / 2 % p;
    Division(x / 2, p);
    assert x == (2 * p) * q + (2 * r + x % 2);
    QuotientIs(x, 2 * p, q, 2 * r + x % 2);
  }

  lemma {:induction false} CountSome(flags: seq<bool>)
    ensures Count(flags) == 0 <==> NoneSet(flags)
  {
    if flags == [] {
    } else {
      CountSome(flags[..|flags| - 1]);
    }
  }

  /** A value of register 6 names a strip exactly if its low byte is not zero. */
  lemma StripsNamed(v: nat)
    ensures Count(Digits(v, STRIP_COUNT)) > 0 <==> v % 256 != 0
  {
    DigitsNone(v, STRIP_COUNT);
    assert Pow2(8) == 256;
    CountSome(Digits(v, STRIP_COUNT));
  }

  /** One request from power-up, accepted like any other, is enough: register 6 with an empty low byte. */
  lemma NoStripFaults(value: uint16)
    requires value > 0 && value % 256 == 0
    ensures exists happenings ::
              Frames(happenings) == [Single(6, value)] && Evolved(PowerUp(), happenings).scheduler.faulted
  {
    var frames := [Single(6, value)];
    var e := Sessions.EffectiveRegisters(Plain(frames));
    AfterOne(6, value);
    StripsNamed(value);
    AppendSetting([], SettingOf(e));
    assert FrameSettings(frames) == [] + [SettingOf(e)];
    SchedulerFaultsExactly(frames);
  }

  /** What is in force after a single write from power-up. */
  lemma AfterOne(register: byte, value: uint16)
    requires register < HOLDING_COUNT && value > 0
    ensures var frames := [Single(register, value)];
            var e := Sessions.EffectiveRegisters(Plain(frames));
            && FrameSettings(frames) == [SettingOf(e)] && FrameSetups(frames) == [SetupOf(e)]
            && e == BOOT_REGISTERS[register as int := value]
  {
    var frames: seq<Frame> := [];
    var e := Sessions.EffectiveRegisters(Plain([Single(register, value)]));
    PlainNext(frames, Single(register, value));
    assert frames + [Single(register, value)] == [Single(register, value)];
    forall r | 0 <= r < HOLDING_COUNT ensures e[r] == BOOT_REGISTERS[register as int := value][r] {
      AfterSingle(frames, register, value, r);
    }
    assert e == BOOT_REGISTERS[register as int := value];
  }

  /** So is a frequency above 25 Hz: the wave then has no samples. */
  lemma NoSampleFaults(value: uint16)
    requires value > 25000
    ensures exists happenings ::
              Frames(happenings) == [Single(2, value)] && Evolved(PowerUp(), happenings).plate.faulted
  {
    var frames := [Single(2, value)];
    var e := Sessions.EffectiveRegisters(Plain(frames));
    AfterOne(2, value);
    WaveBuffer.AppendAction([], SetupOf(e));
    assert FrameSetups(frames) == [] + [SetupOf(e)];
    PlateFaultsExactly(frames);
  }

  /** What one more single write adds to the settings. */
  lemma SettingsAfterSingle(frames: seq<Frame>, register: byte, value: uint16)
    requires register < HOLDING_COUNT
    ensures var added := Setting(Digits(Coming(frames, register, value, 6), STRIP_COUNT),
                                 Coming(frames, register, value, 0) <= 3 && Coming(frames, register, value, 2) != 1);
            FrameSettings(frames + [Single(register, value)]) == FrameSettings(frames) + [added]
  {
    PlainNext(frames, Single(register, value));
    AfterSingle(frames, register, value, 0);
    AfterSingle(frames, register, value, 2);
    AfterSingle(frames, register, value, 6);
  }

  lemma HeldAfterTwo(r: nat)
    requires r < HOLDING_COUNT
    ensures Sessions.Held(Plain([Single(6, 1)]), r) == if r == 6 then 1 else BOOT_REGISTERS[r]
    ensures Sessions.Held(Plain([Single(6, 1)] + [Single(0, 4)]), r)
         == if r == 0 then 4 else if r == 6 then 1 else BOOT_REGISTERS[r]
  {
    AfterSingle([], 6, 1, r);
    Unit([Single(6, 1)]);
    AfterSingle([Single(6, 1)], 0, 4, r);
  }

  lemma WideningSettings()
    ensures var a, c := Setting(Digits(1, STRIP_COUNT), true), Setting(Digits(3, STRIP_COUNT), false);
            && FrameSettings([Single(6, 1)] + [Single(0, 4)]) == [a] + [a.(ready := false)]
            && FrameSettings([Single(6, 1)] + [Single(0, 4)] + [Single(6, 3)]) == [a] + [a.(ready := false)] + [c]
  {
    AfterOne(6, 1);
    HeldAfterTwo(0);
    HeldAfterTwo(2);
    HeldAfterTwo(6);
    SettingsAfterSingle([Single(6, 1)], 0, 4);
    SettingsAfterSingle([Single(6, 1)] + [Single(0, 4)], 6, 3);
  }

  /** One strip, then a wave form that is refused, then two strips: the first two alone are harmless. */
  lemma WideningFaults()
    ensures Harmless(FrameSettings([Single(6, 1)] + [Single(0, 4)]), true)
    ensures exists happenings ::
              && Frames(happenings) == [Single(6, 1)] + [Single(0, 4)] + [Single(6, 3)]
              && Evolved(PowerUp(), happenings).scheduler.faulted
  {
    var a := Setting(Digits(1, STRIP_COUNT), true);
    WideningSettings();
    WideningHarm(a, a.(ready := false), Setting(Digits(3, STRIP_COUNT), false));
    SchedulerFaultsExactly([Single(6, 1)] + [Single(0, 4)] + [Single(6, 3)]);
  }

  lemma WideningHarm(a: Setting, b: Setting, c: Setting)
    requires a == Setting(Digits(1, STRIP_COUNT), true) && b == a.(ready := false)
    requires c == Setting(Digits(3, STRIP_COUNT), false)
    ensures Harmless([a] + [b], true) && !Harmless([a] + [b] + [c], true)
  {
    FewDigits();
    AppendSetting([], a);
    Unit([a]);
    AppendSetting([a], b);
    AppendSetting([a] + [b], c);
  }

  lemma FewDigits()
    ensures Count(Digits(1, STRIP_COUNT)) == 1 && Count(Digits(3, STRIP_COUNT)) >= 2
  {
    assert Pow2(0) == 1;
    PowerDigits(0, STRIP_COUNT);
    CountOne(Digits(1, STRIP_COUNT), 0);
    DigitAt(3, STRIP_COUNT, 0);
    DigitAt(3, STRIP_COUNT, 1);
    CountTwo(Digits(3, STRIP_COUNT), 0, 1);
  }

  lemma {:induction false} CountTwo(flags: seq<bool>, i: nat, j: nat)
    requires i < j < |flags| && flags[i] && flags[j]
    ensures Count(flags) >= 2
  {
    var front := flags[..|flags| - 1];
    if j < |front| {
      CountTwo(front, i, j);
    } else {
      assert front[i];
      CountSome(front);
    }
  }
}
