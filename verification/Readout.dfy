/** What a master reads: the resistances of the last complete sweep, from interrupt to reply. */
module Readout {
  import opened Acquisition
  import opened Binary
  import opened Instrument
  import opened Modbus
  import opened Parameters
  import opened Polling
  import opened Replies
  import opened Rounds
  import opened Strips
  import Conversions
  import Sweeps
  import WaveBuffer
  import Windows

  /** No granted write among the happenings. */
  ghost predicate WriteFree(happenings: seq<Happening>) {
    forall h <- happenings :: h.Request? ==> !GrantedWrite(h.frame)
  }

  lemma ReadLeavesScheduler(w: World, h: Happening)
    requires !w.slave.changed && (h.Request? ==> !GrantedWrite(h.frame))
    ensures !Next(w, h).slave.changed && forall e <- Driven(w, h) :: !e.Reconfigure?
  {
    if h.Request? {
      ServeIgnoresFlag(w.slave, h.frame, Table(w.scheduler.readings, h.filler));
    }
  }

  lemma {:induction false} WriteFreeSteady(w: World, happenings: seq<Happening>)
    requires !w.slave.changed && WriteFree(happenings)
    ensures Steady(Events(w, happenings)) && !Evolved(w, happenings).slave.changed
  {
    if happenings == [] {
    } else {
      var front := happenings[..|happenings| - 1];
      WriteFreeSteady(w, front);
      ReadLeavesScheduler(Evolved(w, front), happenings[|happenings| - 1]);
    }
  }

  /** The complete sweeps since the scheduler was restarted in state `start`. */
  function Complete(start: State, events: seq<Event>, strips: StripFlags): seq<seq<Close>> {
    Sweeps.Grouped(Closes(start, events), Count(strips)).done
  }

  /** What register c of a read is after a run since a restart that began with the total at `base`. */
  ghost predicate Reads(value: int, done: seq<seq<Close>>, strips: StripFlags, base: nat, c: Channel, filler: int)
    requires done != []
  {
    var last := done[|done| - 1];
    if strips[c]
    then exists p: nat ::
           && p < |last| == |ActiveList(strips)| && ActiveList(strips)[p] == c
           && value == Number(Sweeps.Report(last, p, if |done| == 1 then base else 0).ohms, filler) % 65536
    else value == 0
  }

  lemma ReportedRead(strips: StripFlags, readings: ReadingTable, sweep: seq<Close>, base: nat, c: Channel) returns (p: nat)
    requires Sweeps.Reported(strips, readings, sweep, base) && strips[c]
    ensures p < |sweep| == |ActiveList(strips)| && ActiveList(strips)[p] == c
    ensures readings[c] == Sweeps.Report(sweep, p, base)
  {
    ActiveListed(strips);
    p :| p < |ActiveList(strips)| && ActiveList(strips)[p] == c;
    assert sweep[p].channel == c;
  }

  lemma ReadingsRead(strips: StripFlags, readings: ReadingTable, done: seq<seq<Close>>, base: nat, c: Channel, filler: int)
    requires done != [] && Sweeps.Blank(strips, readings)
    requires Sweeps.Reported(strips, readings, done[|done| - 1], if |done| == 1 then base else 0)
    ensures Reads(Number(readings[c].ohms, filler) % 65536, done, strips, base, c, filler)
  {
    if strips[c] {
      var p := ReportedRead(strips, readings, done[|done| - 1], if |done| == 1 then base else 0, c);
    }
  }

  lemma LastSweepReported(s: State, strips: StripFlags, start: State, events: seq<Event>)
    requires Restarted(s, strips, start) && Steady(events) && Complete(start, events, strips) != []
    ensures var readings, done := Acquisition.Run(start, events).readings, Complete(start, events, strips);
            && Sweeps.Blank(strips, readings)
            && Sweeps.Reported(strips, readings, done[|done| - 1], if |done| == 1 then s.total else 0)
  {
    Sweeps.SweepReport(s, strips, start, events);
  }

  lemma SweepRead(s: State, strips: StripFlags, start: State, events: seq<Event>, c: Channel, filler: int)
    requires Restarted(s, strips, start) && Steady(events) && Complete(start, events, strips) != []
    ensures Reads(Number(Acquisition.Run(start, events).readings[c].ohms, filler) % 65536,
                  Complete(start, events, strips), strips, s.total, c, filler)
  {
    LastSweepReported(s, strips, start, events);
    ReadingsRead(strips, Acquisition.Run(start, events).readings, Complete(start, events, strips), s.total, c, filler);
  }

  /**
   End to end: a granted write whose hot-plate setup succeeds and which names a strip, then any
   mix of interrupts and of requests that write nothing.  Once a sweep is complete, a granted
   read of input registers returns for every active strip the resistance of its window in the
   last complete sweep, modulo 2^16, and 0 for every other strip.
   */
  lemma ReadShowsLastSweep(w: World, write: Happening, later: seq<Happening>, frame: Frame, filler: int, i: nat)
    requires !w.slave.changed && !w.scheduler.faulted && write.Request? && GrantedWrite(write.frame)
    requires WriteFree(later) && Granted(frame) && frame[1] == READ_INPUT && i < Quantity(frame)
    requires var live := Next(w, write).slave.live;
             && WaveBuffer.Accepted(live.waveType, live.frequency) && Count(live.strips) > 0
             && Complete(Next(w, write).scheduler, Events(Next(w, write), later), live.strips) != []
    ensures var reply := Answer(Evolved(Next(w, write), later), frame, filler).reply;
            && reply.Some? && |reply.value| == 5 + 2 * Quantity(frame)
            && Reads(Carried(reply.value, i),
                     Complete(Next(w, write).scheduler, Events(Next(w, write), later), Next(w, write).slave.live.strips),
                     Next(w, write).slave.live.strips, w.scheduler.total, Start(frame) + i, filler)
  {
    var start := Next(w, write);
    var strips := start.slave.live.strips;
    WriteRestarts(w, write);
    WriteFreeSteady(start, later);
    PartsRun(start, later);
    var now := Evolved(start, later);
    SweepRead(w.scheduler, strips, start.scheduler, Events(start, later), Start(frame) + i, filler);
    InputReadCarries(now.slave, frame, Table(now.scheduler.readings, filler), i);
  }

  /** What register c of a read is, in terms of the conversions since the restart of a scheduler in state s. */
  ghost predicate ReadsConversions(value: int, s: State, volts: seq<uint16>, amps: seq<uint16>, strips: StripFlags,
                                   sweeps: nat, c: Channel, filler: int)
    requires sweeps > 0
  {
    if strips[c]
    then exists p: nat ::
           && p < |ActiveList(strips)| && ActiveList(strips)[p] == c
           && Conversions.Covered(volts, amps, Count(strips), sweeps - 1)
           && p < Count(strips)
           && value == Number(Conversions.Resistance(s, volts, amps, Count(strips), sweeps - 1, p), filler) % 65536
    else value == 0
  }

  lemma {:induction false} ReadsAreConversions(value: int, s: State, strips: StripFlags, start: State, events: seq<Event>,
                                               c: Channel, filler: int)
    requires Restarted(s, strips, start) && Windows.Paced(events) && Complete(start, events, strips) != []
    requires Reads(value, Complete(start, events, strips), strips, s.total, c, filler)
    ensures ReadsConversions(value, s, Converted(events, VoltageAdc), Converted(events, CurrentAdc), strips,
                             |Complete(start, events, strips)|, c, filler)
  {
    var done := Complete(start, events, strips);
    if strips[c] {
      var p: nat :| && p < |done[|done| - 1]| == |ActiveList(strips)| && ActiveList(strips)[p] == c
                    && value == Number(Sweeps.Report(done[|done| - 1], p, if |done| == 1 then s.total else 0).ohms, filler) % 65536;
      ActiveListed(strips);
      Conversions.ReportIs(s, strips, start, events, |done| - 1, p);
    }
  }

  /**
   From conversions to reply bytes: with one conversion of each kind per trigger, what a read
   returns for an active strip is the rounded quotient of the averages over the conversions of
   its own window and over those of all windows of the last complete sweep.
   */
  lemma {:induction false} ReadShowsConversions(w: World, write: Happening, later: seq<Happening>, frame: Frame,
                                                filler: int, i: nat)
    requires !w.slave.changed && !w.scheduler.faulted && write.Request? && GrantedWrite(write.frame)
    requires WriteFree(later) && Granted(frame) && frame[1] == READ_INPUT && i < Quantity(frame)
    requires Windows.Paced(Events(Next(w, write), later))
    requires var live := Next(w, write).slave.live;
             && WaveBuffer.Accepted(live.waveType, live.frequency) && Count(live.strips) > 0
             && Complete(Next(w, write).scheduler, Events(Next(w, write), later), live.strips) != []
    ensures var reply := Answer(Evolved(Next(w, write), later), frame, filler).reply;
            var events, strips := Events(Next(w, write), later), Next(w, write).slave.live.strips;
            && reply.Some? && |reply.value| == 5 + 2 * Quantity(frame)
            && ReadsConversions(Carried(reply.value, i), w.scheduler, Converted(events, VoltageAdc),
                                Converted(events, CurrentAdc), strips,
                                |Complete(Next(w, write).scheduler, events, strips)|, Start(frame) + i, filler)
  {
    ReadShowsLastSweep(w, write, later, frame, filler, i);
    WriteRestarts(w, write);
    var reply := Answer(Evolved(Next(w, write), later), frame, filler).reply;
    ReadsAreConversions(Carried(reply.value, i), w.scheduler, Next(w, write).slave.live.strips, Next(w, write).scheduler,
                        Events(Next(w, write), later), Start(frame) + i, filler);
  }

  lemma WriteRestarts(w: World, write: Happening)
    requires !w.slave.changed && !w.scheduler.faulted && write.Request? && GrantedWrite(write.frame)
    requires var live := Next(w, write).slave.live;
             WaveBuffer.Accepted(live.waveType, live.frequency) && Count(live.strips) > 0
    ensures Restarted(w.scheduler, Next(w, write).slave.live.strips, Next(w, write).scheduler)
    ensures !Next(w, write).slave.changed
  {
    ServeIgnoresFlag(w.slave, write.frame, Table(w.scheduler.readings, write.filler));
  }
}
