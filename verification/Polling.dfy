/** The main loop of Modbus mode: serve a frame, reinitialise the peripherals if it changed a parameter, repeat. */
module Polling {
  import opened Binary
  import opened Framing
  import opened Modbus
  import opened Parameters
  import opened Replies
  import opened Sessions
  import opened Wrappers

  /** What a reply adds to the line. */
  function Transmission(reply: Option<seq<byte>>): seq<seq<byte>> {
    match reply
    case None => []
    case Some(frame) => [frame]
  }

  datatype Polled = Polled(slave: Slave, sent: seq<seq<byte>>, reinitialised: seq<Live>)

  function Poll(slave: Slave, requests: seq<Request>): Polled {
    if requests == [] then Polled(slave, [], []) else
      var n := |requests| - 1;
      var before := Poll(slave, requests[..n]);
      var served := Serve(before.slave, requests[n].frame, requests[n].resistance);
      Polled(served.slave.(changed := false),
             before.sent + Transmission(served.reply),
             before.reinitialised + if served.slave.changed then [served.slave.live] else [])
  }

  /** One turn of the loop. */
  lemma PollAppend(slave: Slave, requests: seq<Request>, request: Request)
    ensures var before := Poll(slave, requests);
            var served := Serve(before.slave, request.frame, request.resistance);
            Poll(slave, requests + [request])
            == Polled(served.slave.(changed := false),
                      before.sent + Transmission(served.reply),
                      before.reinitialised + if served.slave.changed then [served.slave.live] else [])
  {
    assert (requests + [request])[..|requests|] == requests;
  }

  lemma PollOne(slave: Slave, request: Request)
    ensures var served := Serve(slave, request.frame, request.resistance);
            Poll(slave, [request])
            == Polled(served.slave.(changed := false), Transmission(served.reply),
                      if served.slave.changed then [served.slave.live] else [])
  {
    PollAppend(slave, [], request);
    Unit([request]);
    Unit(Transmission(Serve(slave, request.frame, request.resistance).reply));
  }

  lemma PollTurn(slave: Slave, requests: seq<Request>, request: Request)
    ensures var before := Poll(slave, requests);
            var turn := Poll(before.slave, [request]);
            Poll(slave, requests + [request])
            == Polled(turn.slave, before.sent + turn.sent, before.reinitialised + turn.reinitialised)
  {
    PollAppend(slave, requests, request);
    PollOne(Poll(slave, requests).slave, request);
  }

  /** Frames with the resistances that each of them meets. */
  function Requests(frames: seq<Frame>, met: seq<Resistances>): seq<Request>
    requires |frames| == |met|
  {
    seq(|frames|, i requires 0 <= i < |frames| => Request(frames[i], met[i]))
  }

  lemma RequestsAppend(frames: seq<Frame>, met: seq<Resistances>, frame: Frame, resistance: Resistances)
    requires |frames| == |met|
    ensures Requests(frames + [frame], met + [resistance]) == Requests(frames, met) + [Request(frame, resistance)]
  {
  }

  lemma ServeIgnoresFlag(slave: Slave, frame: seq<byte>, resistance: Resistances)
    requires Complete(frame)
    ensures var a, b := Serve(slave, frame, resistance), Serve(slave.(changed := false), frame, resistance);
            && a.reply == b.reply
            && a.slave.(changed := false) == b.slave.(changed := false)
            && (b.slave.changed <==> GrantedWrite(frame))
  {
  }

  /** The loop leaves the registers and parameters where the same requests leave them without it. */
  lemma {:induction false} PollIsRun(slave: Slave, requests: seq<Request>)
    requires !slave.changed
    ensures Poll(slave, requests).slave == Run(slave, requests).(changed := false)
  {
    if requests == [] {
    } else {
      var n := |requests| - 1;
      PollIsRun(slave, requests[..n]);
      ServeIgnoresFlag(Run(slave, requests[..n]), requests[n].frame, requests[n].resistance);
    }
  }

  /**
   What the last request adds: the reply that the plain session gives, and, for a granted write,
   a reinitialisation with the live configuration of that session.
   */
  lemma PollLast(slave: Slave, requests: seq<Request>)
    requires !slave.changed && requests != []
    ensures var n := |requests| - 1;
            var before, after := Poll(slave, requests[..n]), Poll(slave, requests);
            && after.sent == before.sent
                 + Transmission(Serve(Run(slave, requests[..n]), requests[n].frame, requests[n].resistance).reply)
            && after.reinitialised == before.reinitialised
                 + if GrantedWrite(requests[n].frame) then [Run(slave, requests).live] else []
  {
    var n := |requests| - 1;
    PollIsRun(slave, requests[..n]);
    ServeIgnoresFlag(Run(slave, requests[..n]), requests[n].frame, requests[n].resistance);
  }

  /** How many of the requests have a frame that a predicate picks. */
  function Tally(requests: seq<Request>, p: Frame -> bool): nat {
    if requests == [] then 0 else
      Tally(requests[..|requests| - 1], p) + if p(requests[|requests| - 1].frame) then 1 else 0
  }

  /** One transmission for each frame with the slave's address, one reinitialisation for each granted write. */
  lemma {:induction false} PollTallies(slave: Slave, requests: seq<Request>)
    requires !slave.changed
    ensures var p := Poll(slave, requests);
            && !p.slave.changed
            && |p.sent| == Tally(requests, (f: Frame) => f[0] == ADDRESS)
            && |p.reinitialised| == Tally(requests, (f: Frame) => GrantedWrite(f))
  {
    if requests == [] {
    } else {
      var n := |requests| - 1;
      PollTallies(slave, requests[..n]);
      var before := Poll(slave, requests[..n]).slave;
      ServeIgnoresFlag(before, requests[n].frame, requests[n].resistance);
      OneReplyPerRequest(before, requests[n].frame, requests[n].resistance);
    }
  }

  /**
   After any byte stream from power-up, cut anywhere by failing reads, registers and parameters
   are what the delivered requests make them.
   */
  lemma StreamSession(bursts: seq<seq<byte>>, met: seq<Resistances>, register: nat)
    requires |met| == |Delivered(bursts)| && register < HOLDING_COUNT
    ensures var requests := Requests(Delivered(bursts), met);
            var slave := Poll(BOOT, requests).slave;
            && slave.holding[register] == Held(requests, register)
            && Reflects(slave.live, EffectiveRegisters(requests))
  {
    var requests := Requests(Delivered(bursts), met);
    PollIsRun(BOOT, requests);
    RegisterStore(requests, register);
    LiveConfiguration(requests);
  }
}
