/** The slave over whole sequences of requests, from power-up. */
module Sessions {
  import opened Binary
  import opened Parameters
  import opened Modbus
  import opened Replies
  import opened Wrappers

  /** A delivered frame, with the resistances that are current when it is served. */
  datatype Request = Request(frame: Frame, resistance: Resistances)

  function Run(slave: Slave, requests: seq<Request>): Slave {
    if requests == [] then slave else
      var n := |requests| - 1;
      Serve(Run(slave, requests[..n]), requests[n].frame, requests[n].resistance).slave
  }

  // ----- Histories read off the requests alone -----

  /** The value a request writes to a holding register, if it is granted and covers it. */
  function Written(frame: seq<byte>, register: nat): Option<uint16>
    requires Complete(frame)
  {
    if !GrantedWrite(frame) then None
    else if frame[1] == WRITE_SINGLE then
      if register == Start(frame) then Some(Quantity(frame)) else None
    else if Start(frame) <= register < Start(frame) + Quantity(frame) then
      var i := register - Start(frame);
      Some(Word(frame[7 + 2 * i], frame[8 + 2 * i]))
    else None
  }

  /** What a holding register must hold after the requests: the last value written, else its boot value. */
  function Held(requests: seq<Request>, register: nat): uint16
    requires register < HOLDING_COUNT
  {
    if requests == [] then BOOT_REGISTERS[register] else
      var n := |requests| - 1;
      match Written(requests[n].frame, register)
      case Some(v) => v
      case None => Held(requests[..n], register)
  }

  /** The last nonzero value a register held at a granted write (to any register), 0 if there was none. */
  function Effective(requests: seq<Request>, register: nat): uint16
    requires register < HOLDING_COUNT
  {
    if requests == [] then 0 else
      var n := |requests| - 1;
      if GrantedWrite(requests[n].frame) && Held(requests, register) != 0
      then Held(requests, register)
      else Effective(requests[..n], register)
  }

  // ----- The register store -----

  lemma OverwriteAt(registers: HoldingRegisters, start: nat, values: seq<uint16>, register: nat)
    requires start + |values| <= HOLDING_COUNT && register < HOLDING_COUNT
    ensures Overwrite(registers, start, values)[register]
         == if start <= register < start + |values| then values[register - start] else registers[register]
  {
  }

  lemma SingleWrites(slave: Slave, frame: Frame, resistance: Resistances, register: nat)
    requires register < HOLDING_COUNT && Granted(frame) && frame[1] == WRITE_SINGLE
    ensures Serve(slave, frame, resistance).slave.holding[register]
         == Written(frame, register).GetOr(slave.holding[register])
  {
  }

  lemma MultipleServed(slave: Slave, frame: Frame, resistance: Resistances)
    requires GrantedWrite(frame) && frame[1] == WRITE_MULTIPLE
    ensures Serve(slave, frame, resistance).slave
         == Stored(slave, Overwrite(slave.holding, Start(frame), Payload(frame, Quantity(frame))))
  {
  }

  lemma MultipleWritten(frame: Frame, register: nat)
    requires register < HOLDING_COUNT && GrantedWrite(frame) && frame[1] == WRITE_MULTIPLE
    ensures var start, values := Start(frame), Payload(frame, Quantity(frame));
            Written(frame, register)
            == if start <= register < start + |values| then Some(values[register - start]) else None
  {
  }

  lemma MultipleWrites(slave: Slave, frame: Frame, resistance: Resistances, register: nat)
    requires register < HOLDING_COUNT && GrantedWrite(frame) && frame[1] == WRITE_MULTIPLE
    ensures Serve(slave, frame, resistance).slave.holding[register]
         == Written(frame, register).GetOr(slave.holding[register])
  {
    var registers, start, values := slave.holding, Start(frame), Payload(frame, Quantity(frame));
    var served := Serve(slave, frame, resistance).slave;
    assert served.holding == Overwrite(registers, start, values) by {
      MultipleServed(slave, frame, resistance);
    }
    assert Written(frame, register) == if start <= register < start + |values| then Some(values[register - start]) else None by {
      MultipleWritten(frame, register);
    }
    OverwriteAt(slave.holding, Start(frame), Payload(frame, Quantity(frame)), register);
  }

  lemma ServeWrites(slave: Slave, request: Request, register: nat)
    requires register < HOLDING_COUNT
    ensures Serve(slave, request.frame, request.resistance).slave.holding[register]
         == Written(request.frame, register).GetOr(slave.holding[register])
  {
    var frame := request.frame;
    if !GrantedWrite(frame) {
      RefusedChangesNothing(slave, frame, request.resistance);
    } else if frame[1] == WRITE_SINGLE {
      SingleWrites(slave, frame, request.resistance, register);
    } else {
      MultipleWrites(slave, frame, request.resistance, register);
    }
  }

  /** Each holding register holds the last value a granted request wrote to it, or its boot value. */
  lemma {:induction false} RegisterStore(requests: seq<Request>, register: nat)
    requires register < HOLDING_COUNT
    ensures Run(BOOT, requests).holding[register] == Held(requests, register)
  {
    if requests == [] {
    } else {
      var n := |requests| - 1;
      RegisterStore(requests[..n], register);
      ServeWrites(Run(BOOT, requests[..n]), requests[n], register);
    }
  }

  /** A read of holding registers after any session returns, high byte first, exactly the last values written. */
  lemma ReadReturnsLastWrites(requests: seq<Request>, request: Request, i: nat)
    requires Granted(request.frame) && request.frame[1] == READ_HOLDING && i < Quantity(request.frame)
    ensures var reply := Serve(Run(BOOT, requests), request.frame, request.resistance).reply;
            && reply.Some? && |reply.value| == 5 + 2 * Quantity(request.frame)
            && Carried(reply.value, i) == Held(requests, Start(request.frame) + i)
  {
    HoldingReadServed(Run(BOOT, requests), request.frame, request.resistance);
    ReadReplyCarries(request.frame, Run(BOOT, requests).holding, i);
    RegisterStore(requests, Start(request.frame) + i);
  }

  lemma HoldingReadServed(slave: Slave, frame: Frame, resistance: Resistances)
    requires Granted(frame) && frame[1] == READ_HOLDING
    ensures Serve(slave, frame, resistance).reply == Some(ReadReply(frame, slave.holding))
  {
  }

  // ----- The live configuration -----

  /** The live configuration that follows from effective register values, 0 standing for none. */
  ghost predicate Reflects(live: Live, e: HoldingRegisters) {
    && live.waveType == (if e[0] == 0 then 0 else e[0] - 1)
    && live.dutyCycle == (if e[1] == 0 then 50 else e[1])
    && live.frequency == (if e[2] == 0 then 0.05 else Milli(e[2]))
    && live.amplitude == (if e[3] == 0 then 21 else e[3] / 1000)
    && live.excitation == (if e[4] == 0 then 1.0 else Milli(e[4]))
    && live.muxFrequency == (if e[5] == 0 then 8 else e[5])
    && live.strips == Digits(e[6], STRIP_COUNT)
    && live.stripCount == Count(live.strips)
  }

  function EffectiveRegisters(requests: seq<Request>): HoldingRegisters {
    seq(HOLDING_COUNT, r requires 0 <= r < HOLDING_COUNT => Effective(requests, r))
  }

  /**
   Each live parameter is the scaled last nonzero value its register held at a granted write,
   or its boot default; the strips are the low eight bits of such a register 6.
   */
  lemma {:induction false} LiveConfiguration(requests: seq<Request>)
    ensures Reflects(Run(BOOT, requests).live, EffectiveRegisters(requests))
  {
    if requests == [] {
      NoStrips();
    } else {
      var n := |requests| - 1;
      var request, before := requests[n], Run(BOOT, requests[..n]);
      LiveConfiguration(requests[..n]);
      if GrantedWrite(request.frame) {
        var slave := Run(BOOT, requests);
        forall r | 0 <= r < HOLDING_COUNT ensures slave.holding[r] == Held(requests, r) {
          RegisterStore(requests, r);
        }
        UpdateReflects(before.live, slave.holding, EffectiveRegisters(requests[..n]), EffectiveRegisters(requests));
        ServeUpdates(before, request);
      } else {
        RefusedChangesNothing(before, request.frame, request.resistance);
        assert EffectiveRegisters(requests) == EffectiveRegisters(requests[..n]);
      }
    }
  }

  lemma UpdateReflects(live: Live, h: HoldingRegisters, e: HoldingRegisters, e': HoldingRegisters)
    requires Reflects(live, e)
    requires forall r | 0 <= r < HOLDING_COUNT :: e'[r] == if h[r] != 0 then h[r] else e[r]
    ensures Reflects(Updated(live, h), e')
  {
  }

  lemma ServeUpdates(slave: Slave, request: Request)
    requires GrantedWrite(request.frame)
    ensures var slave' := Serve(slave, request.frame, request.resistance).slave;
            slave'.live == Updated(slave.live, slave'.holding) && slave'.changed
  {
  }

  lemma {:induction false} UntouchedHolds(requests: seq<Request>, register: nat)
    requires register < HOLDING_COUNT
    requires forall i | 0 <= i < |requests| :: Written(requests[i].frame, register) == None
    ensures Held(requests, register) == BOOT_REGISTERS[register]
  {
    if requests == [] {
    } else {
      var n := |requests| - 1;
      assert forall i | 0 <= i < n :: requests[..n][i] == requests[i];
      UntouchedHolds(requests[..n], register);
    }
  }

  /**
   The boot value 8 of register 6 is a mask, not a count: a session that never writes that
   register still switches on exactly the strip with index 3 at its first granted write.
   */
  lemma BootMaskIsOneStrip(requests: seq<Request>, c: nat)
    requires requests != [] && GrantedWrite(requests[|requests| - 1].frame) && c < STRIP_COUNT
    requires forall i | 0 <= i < |requests| :: Written(requests[i].frame, 6) == None
    ensures Run(BOOT, requests).live.strips[c] <==> c == 3
    ensures Run(BOOT, requests).live.stripCount == 1
  {
    UntouchedHolds(requests, 6);
    LiveConfiguration(requests);
    EffectiveNow(requests, 6);
    MaskEight(Run(BOOT, requests).live, EffectiveRegisters(requests), c);
  }

  lemma EffectiveNow(requests: seq<Request>, register: nat)
    requires requests != [] && GrantedWrite(requests[|requests| - 1].frame)
    requires register < HOLDING_COUNT && Held(requests, register) != 0
    ensures EffectiveRegisters(requests)[register] == Held(requests, register)
  {
  }

  lemma MaskEight(live: Live, e: HoldingRegisters, c: nat)
    requires Reflects(live, e) && e[6] == 8 && c < STRIP_COUNT
    ensures live.strips[c] <==> c == 3
    ensures live.stripCount == 1
  {
    EightAsMask();
  }

  lemma EightAsMask()
    ensures Digits(8, STRIP_COUNT) == [false, false, false, true, false, false, false, false]
    ensures Count(Digits(8, STRIP_COUNT)) == 1
  {
    assert Pow2(3) == 8;
    PowerDigits(3, STRIP_COUNT);
    CountOne(Digits(8, STRIP_COUNT), 3);
  }

  lemma NoStrips()
    ensures Digits(0, STRIP_COUNT) == BOOT_LIVE.strips
    ensures Count(BOOT_LIVE.strips) == 0
  {
    CountNone(BOOT_LIVE.strips);
  }
}
