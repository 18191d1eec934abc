/**
 The whole instrument in Modbus mode: requests reconfigure the scheduler and the hot plate,
 interrupts drive them, and reads show the readings.
 */
module Instrument {
  import opened Acquisition
  import opened Binary
  import opened HotPlateSessions
  import opened Modbus
  import opened Parameters
  import opened Polling
  import opened Replies
  import opened Safety
  import opened Wrappers
  import Sessions
  import WaveBuffer

  type Interrupt = e: Event | !e.Reconfigure? witness Tick

  /** `filler` is what converting an undefined quotient leaves in a reading; `WaveTick` is the callback of the wave timer. */
  datatype Happening = Request(frame: Frame, filler: int) | Interrupted(event: Interrupt) | WaveTick

  datatype World = World(slave: Slave, scheduler: State, plate: WaveBuffer.Playback)

  function PowerUp(): World {
    World(BOOT, Boot(true), WaveBuffer.SILENT)
  }

  function Table(readings: ReadingTable, filler: int): Resistances {
    seq(STRIP_COUNT, i requires 0 <= i < STRIP_COUNT => Number(readings[i].ohms, filler))
  }

  function Number(ohms: Option<nat>, filler: int): int {
    match ohms
    case Some(v) => v
    case None => filler
  }

  /** The slave a request leaves behind; its change flag tells whether the peripherals are reinitialised. */
  function Answer(w: World, frame: Frame, filler: int): Served {
    Serve(w.slave, frame, Table(w.scheduler.readings, filler))
  }

  /** What a happening means for the scheduler, and for the hot plate. */
  function Driven(w: World, h: Happening): seq<Event> {
    match h
    case Interrupted(e) => [e]
    case WaveTick => []
    case Request(frame, filler) =>
      var slave := Answer(w, frame, filler).slave;
      if slave.changed
      then [Reconfigure(slave.live.strips, WaveBuffer.Accepted(slave.live.waveType, slave.live.frequency))] else []
  }

  ghost function Played(w: World, h: Happening): seq<WaveBuffer.Action> {
    match h
    case Interrupted(_) => []
    case WaveTick => [WaveBuffer.Callback]
    case Request(frame, filler) =>
      var slave := Answer(w, frame, filler).slave;
      if slave.changed then [SetupFor(slave.live)] else []
  }

  ghost function Next(w: World, h: Happening): World {
    World(if h.Request? then Answer(w, h.frame, h.filler).slave.(changed := false) else w.slave,
          if Driven(w, h) == [] then w.scheduler else Step(w.scheduler, Driven(w, h)[0]),
          if Played(w, h) == [] then w.plate else WaveBuffer.Act(w.plate, Played(w, h)[0]))
  }

  ghost function Evolved(w: World, happenings: seq<Happening>): World {
    if happenings == [] then w else Next(Evolved(w, happenings[..|happenings| - 1]), happenings[|happenings| - 1])
  }

  ghost function Events(w: World, happenings: seq<Happening>): seq<Event> {
    if happenings == [] then [] else
      var front := happenings[..|happenings| - 1];
      Events(w, front) + Driven(Evolved(w, front), happenings[|happenings| - 1])
  }

  ghost function Actions(w: World, happenings: seq<Happening>): seq<WaveBuffer.Action> {
    if happenings == [] then [] else
      var front := happenings[..|happenings| - 1];
      Actions(w, front) + Played(Evolved(w, front), happenings[|happenings| - 1])
  }

  lemma AtMostOne(w: World, h: Happening)
    ensures |Driven(w, h)| <= 1 && |Played(w, h)| <= 1
    ensures h.Request? ==> forall a <- Played(w, h) :: a.Setup?
  {
  }

  lemma AppendEvents(s: State, events: seq<Event>, driven: seq<Event>)
    requires |driven| <= 1
    ensures Acquisition.Run(s, events + driven)
         == if driven == [] then Acquisition.Run(s, events) else Step(Acquisition.Run(s, events), driven[0])
  {
    if driven == [] {
      assert events + driven == events;
    } else {
      assert (events + driven)[..|events|] == events;
    }
  }

  lemma AppendActions(p: WaveBuffer.Playback, actions: seq<WaveBuffer.Action>, played: seq<WaveBuffer.Action>)
    requires |played| <= 1
    ensures WaveBuffer.Play(p, actions + played)
         == if played == [] then WaveBuffer.Play(p, actions) else WaveBuffer.Act(WaveBuffer.Play(p, actions), played[0])
  {
    if played == [] {
      assert actions + played == actions;
    } else {
      assert (actions + played)[..|actions|] == actions;
    }
  }

  lemma NextParts(w: World, h: Happening)
    ensures Next(w, h).scheduler == if Driven(w, h) == [] then w.scheduler else Step(w.scheduler, Driven(w, h)[0])
    ensures Next(w, h).plate == if Played(w, h) == [] then w.plate else WaveBuffer.Act(w.plate, Played(w, h)[0])
  {
  }

  /** Scheduler and hot plate run on what the happenings mean for them. */
  lemma {:induction false} PartsRun(w: World, happenings: seq<Happening>)
    ensures Evolved(w, happenings).scheduler == Acquisition.Run(w.scheduler, Events(w, happenings))
    ensures Evolved(w, happenings).plate == WaveBuffer.Play(w.plate, Actions(w, happenings))
  {
    if happenings == [] {
    } else {
      var front, h := happenings[..|happenings| - 1], happenings[|happenings| - 1];
      PartsRun(w, front);
      AtMostOne(Evolved(w, front), h);
      NextParts(Evolved(w, front), h);
      AppendEvents(w.scheduler, Events(w, front), Driven(Evolved(w, front), h));
      AppendActions(w.plate, Actions(w, front), Played(Evolved(w, front), h));
    }
  }

  // ----- The register side -----

  /** The requests among the happenings, with the resistances each of them met. */
  ghost function Requests(happenings: seq<Happening>): seq<Sessions.Request> {
    if happenings == [] then [] else
      var front := happenings[..|happenings| - 1];
      Requests(front) + Posed(Evolved(PowerUp(), front), happenings[|happenings| - 1])
  }

  function Posed(w: World, h: Happening): seq<Sessions.Request> {
    match h
    case Request(frame, filler) => [Sessions.Request(frame, Table(w.scheduler.readings, filler))]
    case _ => []
  }

  /** The register side of the instrument is the session of its requests. */
  lemma {:induction false} SlaveIsSession(happenings: seq<Happening>)
    ensures Evolved(PowerUp(), happenings).slave == Sessions.Run(BOOT, Requests(happenings)).(changed := false)
  {
    if happenings == [] {
    } else {
      var front, h := happenings[..|happenings| - 1], happenings[|happenings| - 1];
      SlaveIsSession(front);
      NextSession(Evolved(PowerUp(), front), Requests(front), h);
    }
  }

  lemma AppendRequest(requests: seq<Sessions.Request>, request: Sessions.Request)
    ensures var all := requests + [request];
            && all[..|all| - 1] == requests && all[|all| - 1] == request
            && Sessions.Run(BOOT, all) == Serve(Sessions.Run(BOOT, requests), request.frame, request.resistance).slave
  {
    assert (requests + [request])[..|requests|] == requests;
  }

  lemma NextSession(w: World, requests: seq<Sessions.Request>, h: Happening)
    requires w.slave == Sessions.Run(BOOT, requests).(changed := false)
    ensures Next(w, h).slave == Sessions.Run(BOOT, requests + Posed(w, h)).(changed := false)
    ensures h.Request? ==> Answer(w, h.frame, h.filler).slave.live == Sessions.Run(BOOT, requests + Posed(w, h)).live
    ensures h.Request? ==> (Answer(w, h.frame, h.filler).slave.changed <==> GrantedWrite(h.frame))
  {
    if h.Request? {
      AppendRequest(requests, Posed(w, h)[0]);
      ServeIgnoresFlag(Sessions.Run(BOOT, requests), h.frame, Table(w.scheduler.readings, h.filler));
    } else {
      assert requests + [] == requests;
    }
  }

  // ----- The settings that requests put in force -----

  /** The registers in effect after each granted write. */
  function InForce(requests: seq<Sessions.Request>): seq<HoldingRegisters> {
    if requests == [] then [] else
      InForce(requests[..|requests| - 1])
      + if GrantedWrite(requests[|requests| - 1].frame) then [Sessions.EffectiveRegisters(requests)] else []
  }

  /** What registers in effect ask of the scheduler, told from registers 0, 2 and 6. */
  function SettingOf(e: HoldingRegisters): Setting {
    Setting(Digits(e[6], STRIP_COUNT), Settable(e))
  }

  function SettingsOf(inForce: seq<HoldingRegisters>): seq<Setting> {
    seq(|inForce|, i requires 0 <= i < |inForce| => SettingOf(inForce[i]))
  }

  /** What they ask of the hot plate, told from registers 0 to 2. */
  function SetupsOf(inForce: seq<HoldingRegisters>): seq<WaveBuffer.Action> {
    seq(|inForce|, i requires 0 <= i < |inForce| => SetupOf(inForce[i]))
  }

  lemma AppendInForce(inForce: seq<HoldingRegisters>, e: HoldingRegisters)
    ensures SettingsOf(inForce + [e]) == SettingsOf(inForce) + [SettingOf(e)]
    ensures SetupsOf(inForce + [e]) == SetupsOf(inForce) + [SetupOf(e)]
  {
  }

  lemma AppendSetups(actions: seq<WaveBuffer.Action>, played: seq<WaveBuffer.Action>)
    requires |played| <= 1
    ensures WaveBuffer.Setups(actions + played)
         == WaveBuffer.Setups(actions) + if played != [] && played[0].Setup? then played else []
  {
    if played == [] {
      assert actions + played == actions;
    } else {
      assert (actions + played)[..|actions|] == actions;
    }
  }

  /** Scheduler and hot plate are reconfigured exactly as the registers in force ask. */
  lemma {:induction false} PartsFollow(happenings: seq<Happening>)
    ensures Settings(Events(PowerUp(), happenings)) == SettingsOf(InForce(Requests(happenings)))
    ensures WaveBuffer.Setups(Actions(PowerUp(), happenings)) == SetupsOf(InForce(Requests(happenings)))
  {
    if happenings == [] {
    } else {
      var front, h := happenings[..|happenings| - 1], happenings[|happenings| - 1];
      var w := Evolved(PowerUp(), front);
      PartsFollow(front);
      SlaveIsSession(front);
      NextSession(w, Requests(front), h);
      SettingsAppend(Events(PowerUp(), front), Driven(w, h));
      AppendSetups(Actions(PowerUp(), front), Played(w, h));
      if h.Request? && GrantedWrite(h.frame) {
        WriteFollows(w, Requests(front), h, InForce(Requests(front)));
      } else {
        NothingFollows(w, Requests(front), h);
      }
    }
  }

  lemma InForceNext(requests: seq<Sessions.Request>, request: Sessions.Request)
    requires GrantedWrite(request.frame)
    ensures InForce(requests + [request]) == InForce(requests) + [Sessions.EffectiveRegisters(requests + [request])]
  {
    AppendRequest(requests, request);
  }

  lemma SettingsOne(strips: StripFlags, ready: bool)
    ensures Settings([Reconfigure(strips, ready)]) == [Setting(strips, ready)]
  {
    assert [Reconfigure(strips, ready)][..0] == [];
  }

  /** What a live configuration brings about is what the registers in force ask. */
  lemma LiveAsks(live: Live, e: HoldingRegisters)
    requires Sessions.Reflects(live, e)
    ensures Setting(live.strips, WaveBuffer.Accepted(live.waveType, live.frequency)) == SettingOf(e)
    ensures SetupFor(live) == SetupOf(e)
  {
    ReadyExactly(live, e);
    SetupReflects(live, e);
  }

  lemma WriteFollows(w: World, requests: seq<Sessions.Request>, h: Happening, inForce: seq<HoldingRegisters>)
    requires h.Request? && GrantedWrite(h.frame) && inForce == InForce(requests)
    requires Answer(w, h.frame, h.filler).slave.changed
    requires Answer(w, h.frame, h.filler).slave.live == Sessions.Run(BOOT, requests + Posed(w, h)).live
    ensures SettingsOf(inForce) + Settings(Driven(w, h)) == SettingsOf(InForce(requests + Posed(w, h)))
    ensures SetupsOf(inForce) + Played(w, h) == SetupsOf(InForce(requests + Posed(w, h)))
  {
    var all, live := requests + Posed(w, h), Answer(w, h.frame, h.filler).slave.live;
    InForceNext(requests, Posed(w, h)[0]);
    AppendInForce(inForce, Sessions.EffectiveRegisters(all));
    Sessions.LiveConfiguration(all);
    LiveAsks(live, Sessions.EffectiveRegisters(all));
    SettingsOne(live.strips, WaveBuffer.Accepted(live.waveType, live.frequency));
  }

  lemma NothingFollows(w: World, requests: seq<Sessions.Request>, h: Happening)
    requires h.Request? ==> !GrantedWrite(h.frame) && !Answer(w, h.frame, h.filler).slave.changed
    ensures Settings(Driven(w, h)) == [] && (Played(w, h) != [] ==> Played(w, h)[0].Callback?)
    ensures InForce(requests + Posed(w, h)) == InForce(requests)
  {
    if h.Request? {
      AppendRequest(requests, Posed(w, h)[0]);
    } else {
      assert requests + [] == requests;
      assert Driven(w, h) != [] ==> Driven(w, h)[..0] == [];
    }
  }

  // ----- What the requests alone decide -----

  function Frames(happenings: seq<Happening>): seq<Frame> {
    if happenings == [] then [] else
      Frames(happenings[..|happenings| - 1]) + Framed(happenings[|happenings| - 1])
  }

  function Framed(h: Happening): seq<Frame> {
    match h
    case Request(frame, _) => [frame]
    case _ => []
  }

  /** Frames as requests that meet no resistance. */
  function Plain(frames: seq<Frame>): seq<Sessions.Request> {
    seq(|frames|, i requires 0 <= i < |frames| => Sessions.Request(frames[i], [0, 0, 0, 0, 0, 0, 0, 0]))
  }

  /** What a list of frames asks of the scheduler, and of the hot plate. */
  function FrameSettings(frames: seq<Frame>): seq<Setting> {
    SettingsOf(InForce(Plain(frames)))
  }

  function FrameSetups(frames: seq<Frame>): seq<WaveBuffer.Action> {
    SetupsOf(InForce(Plain(frames)))
  }

  ghost predicate SameFrames(a: seq<Sessions.Request>, b: seq<Sessions.Request>) {
    |a| == |b| && forall i | 0 <= i < |a| :: a[i].frame == b[i].frame
  }

  lemma {:induction false} SameHistory(a: seq<Sessions.Request>, b: seq<Sessions.Request>, register: nat)
    requires SameFrames(a, b) && register < HOLDING_COUNT
    ensures Sessions.Held(a, register) == Sessions.Held(b, register)
    ensures Sessions.Effective(a, register) == Sessions.Effective(b, register)
  {
    if a == [] {
    } else {
      var n := |a| - 1;
      assert a[n].frame == b[n].frame;
      SameHistory(a[..n], b[..n], register);
    }
  }

  lemma {:induction false} SameInForce(a: seq<Sessions.Request>, b: seq<Sessions.Request>)
    requires SameFrames(a, b)
    ensures InForce(a) == InForce(b)
  {
    if a == [] {
    } else {
      var n := |a| - 1;
      assert a[n].frame == b[n].frame;
      SameInForce(a[..n], b[..n]);
      forall r | 0 <= r < HOLDING_COUNT
        ensures Sessions.EffectiveRegisters(a)[r] == Sessions.EffectiveRegisters(b)[r]
      {
        SameHistory(a, b, r);
      }
      assert Sessions.EffectiveRegisters(a) == Sessions.EffectiveRegisters(b);
    }
  }

  lemma {:induction false} RequestFrames(happenings: seq<Happening>)
    ensures SameFrames(Requests(happenings), Plain(Frames(happenings)))
  {
    if happenings == [] {
    } else {
      RequestFrames(happenings[..|happenings| - 1]);
    }
  }

  /** So scheduler and hot plate are reconfigured as the frames alone say. */
  lemma FramesDecide(happenings: seq<Happening>)
    ensures Settings(Events(PowerUp(), happenings)) == FrameSettings(Frames(happenings))
    ensures WaveBuffer.Setups(Actions(PowerUp(), happenings)) == FrameSetups(Frames(happenings))
  {
    PartsFollow(happenings);
    RequestFrames(happenings);
    SameInForce(Requests(happenings), Plain(Frames(happenings)));
  }

  lemma PlainNext(frames: seq<Frame>, frame: Frame)
    ensures FrameSettings(frames + [frame]) == FrameSettings(frames)
            + if GrantedWrite(frame) then [SettingOf(Sessions.EffectiveRegisters(Plain(frames + [frame])))] else []
    ensures FrameSetups(frames + [frame]) == FrameSetups(frames)
            + if GrantedWrite(frame) then [SetupOf(Sessions.EffectiveRegisters(Plain(frames + [frame])))] else []
  {
    var all := Plain(frames + [frame]);
    assert all[..|frames|] == Plain(frames);
    assert all[|frames|].frame == frame;
    if GrantedWrite(frame) {
      AppendInForce(InForce(Plain(frames)), Sessions.EffectiveRegisters(all));
    }
  }
}
