/** The slave as the firmware runs it: global registers updated in place, replies built in byte buffers, bytes taken one by one. */
module ModbusDevice {
  import opened Binary
  import opened Crc16
  import opened Framing
  import opened Modbus
  import opened Parameters
  import opened Polling
  import opened Sessions
  import opened Wrappers

  class Device {
    const holdingRegisters: array<uint16>
    const inputRegisters: array<uint16>
    const activeStrips: array<bool>
    const resistanceArray: array<int>
    var waveType: nat
    var dutyCycle: nat
    var desiredFrequency: real
    var desiredAmplitude: nat
    var excitationVoltage: real
    var muxFreq: nat
    var stripCount: nat
    var modbusParamChanged: bool
    // The serial line: the bytes up to the next read that fails, those between the failing reads
    // after it, and every buffer written so far.
    var incoming: seq<byte>
    var later: seq<seq<byte>>
    var sent: seq<seq<byte>>
    // The live configuration at each reinitialisation of the peripherals.
    ghost var reinitialised: seq<Live>

    ghost predicate Valid()
      reads this
    {
      && holdingRegisters.Length == HOLDING_COUNT && inputRegisters.Length == INPUT_COUNT
      && activeStrips.Length == STRIP_COUNT && resistanceArray.Length == INPUT_COUNT
      && holdingRegisters != inputRegisters
    }

    ghost function LiveView(): Live
      requires Valid()
      reads this, activeStrips
    {
      Live(waveType, dutyCycle, desiredFrequency, desiredAmplitude, excitationVoltage, muxFreq,
           activeStrips[..], stripCount)
    }

    ghost function View(): Slave
      requires Valid()
      reads this, holdingRegisters, inputRegisters, activeStrips
    {
      Slave(holdingRegisters[..], inputRegisters[..], LiveView(), modbusParamChanged)
    }

    ghost function Resistance(): Resistances
      requires Valid()
      reads this, resistanceArray
    {
      resistanceArray[..]
    }

    constructor (incoming: seq<byte>, later: seq<seq<byte>>)
      ensures Valid() && View() == BOOT && sent == [] && reinitialised == []
      ensures this.incoming == incoming && this.later == later
      ensures fresh(holdingRegisters) && fresh(inputRegisters) && fresh(activeStrips) && fresh(resistanceArray)
    {
      holdingRegisters := new uint16[HOLDING_COUNT] [1, 50, 50, 21000, 1000, 8, 8];
      inputRegisters := new uint16[INPUT_COUNT](_ => 0);
      activeStrips := new bool[STRIP_COUNT](_ => false);
      resistanceArray := new int[INPUT_COUNT](_ => 0);
      waveType, dutyCycle, desiredFrequency, desiredAmplitude := 0, 50, 0.05, 21;
      excitationVoltage, muxFreq, stripCount := 1.0, 8, 0;
      modbusParamChanged := false;
      this.incoming, this.later, sent := incoming, later, [];
      reinitialised := [];
      new;
      assert holdingRegisters[..] == BOOT_REGISTERS;
      assert inputRegisters[..] == BOOT.input;
      assert activeStrips[..] == BOOT_LIVE.strips;
    }

    /** The strip loop of Modbus_UpdateParameters. */
    method SetStrips(mask: uint16)
      requires Valid()
      modifies this`stripCount, activeStrips
      ensures activeStrips[..] == Digits(mask, STRIP_COUNT)
      ensures stripCount == Count(Digits(mask, STRIP_COUNT))
    {
      ghost var digits := Digits(mask, STRIP_COUNT);
      stripCount := 0;
      var i := 0;
      while i < STRIP_COUNT
        invariant 0 <= i <= STRIP_COUNT
        invariant activeStrips[..i] == digits[..i]
        invariant stripCount == Count(digits[..i])
      {
        DigitAt(mask, STRIP_COUNT, i);
        assert digits[..i + 1][..i] == digits[..i];
        if mask / Pow2(i) % 2 != 0 {
          activeStrips[i] := true;
          stripCount := stripCount + 1;
        } else {
          activeStrips[i] := false;
        }
        i := i + 1;
      }
      assert digits[..STRIP_COUNT] == digits;
    }

    /** The six numeric parameters of Modbus_UpdateParameters. */
    method UpdateNumbers(buffer: array<uint16>)
      requires Valid() && buffer.Length == HOLDING_COUNT
      modifies this`waveType, this`dutyCycle, this`desiredFrequency, this`desiredAmplitude, this`excitationVoltage, this`muxFreq
      ensures waveType == if buffer[0] != 0 then buffer[0] - 1 else old(waveType)
      ensures dutyCycle == if buffer[1] != 0 then buffer[1] else old(dutyCycle)
      ensures desiredFrequency == if buffer[2] != 0 then Milli(buffer[2]) else old(desiredFrequency)
      ensures desiredAmplitude == if buffer[3] != 0 then buffer[3] / 1000 else old(desiredAmplitude)
      ensures excitationVoltage == if buffer[4] != 0 then Milli(buffer[4]) else old(excitationVoltage)
      ensures muxFreq == if buffer[5] != 0 then buffer[5] else old(muxFreq)
    {
      if buffer[0] != 0 {
        waveType := buffer[0] - 1;
      }
      if buffer[1] != 0 {
        dutyCycle := buffer[1];
      }
      if buffer[2] != 0 {
        desiredFrequency := buffer[2] as real / 1000.0;
      }
      if buffer[3] != 0 {
        desiredAmplitude := buffer[3] / 1000;
      }
      if buffer[4] != 0 {
        excitationVoltage := buffer[4] as real / 1000.0;
      }
      if buffer[5] != 0 {
        muxFreq := buffer[5];
      }
    }

    /** Modbus_UpdateParameters. */
    method UpdateParameters(buffer: array<uint16>)
      requires Valid() && buffer.Length == HOLDING_COUNT
      modifies this`waveType, this`dutyCycle, this`desiredFrequency, this`desiredAmplitude, this`excitationVoltage,
        this`muxFreq, this`stripCount, this`modbusParamChanged, activeStrips
      ensures modbusParamChanged
      ensures LiveView() == Updated(old(LiveView()), old(buffer[..]))
    {
      UpdateNumbers(buffer);
      if buffer[6] != 0 {
        SetStrips(buffer[6]);
      }
      modbusParamChanged := true;
    }

    /** Appends the check value to the first `length` bytes and puts the buffer on the line. */
    method Send(tx: array<byte>, length: nat)
      requires tx.Length == length + 2
      modifies tx, this`sent
      ensures sent == old(sent) + [WithCrc(old(tx[..length]))]
    {
      var crc := ModbusCrc16(tx, length);
      tx[length] := Low(crc);
      tx[length + 1] := High(crc);
      assert tx[..length] == old(tx[..length]);
      assert tx[..] == tx[..length] + [Low(crc), High(crc)];
      sent := sent + [tx[..]];
    }

    /** Modbus_SendError. */
    method SendError(address: byte, code: byte, error: byte)
      modifies this`sent
      ensures sent == old(sent) + [WithCrc([address, ErrorCode(code), error])]
    {
      var frame := new byte[5];
      frame[0] := address;
      frame[1] := if code < 128 then code + 128 else code;
      frame[2] := error;
      assert frame[..3] == [address, ErrorCode(code), error];
      Send(frame, 3);
    }

    /** The data loop of both read handlers. */
    method FillRegisters(tx: array<byte>, registers: array<uint16>, start: nat, count: nat)
      requires start + count <= registers.Length && tx.Length == 3 + 2 * count + 2
      modifies tx
      ensures tx[..3 + 2 * count] == old(tx[..3]) + BigEndian(registers[start..start + count])
    {
      ghost var values := registers[start..start + count];
      var i := 0;
      while i < count
        invariant 0 <= i <= count
        invariant tx[..3 + 2 * i] == old(tx[..3]) + BigEndian(values[..i])
      {
        tx[3 + i * 2] := registers[start + i] / 256;
        tx[4 + i * 2] := registers[start + i] % 256;
        assert values[..i + 1][..i] == values[..i];
        assert tx[..3 + 2 * (i + 1)] == tx[..3 + 2 * i] + [values[i] / 256, values[i] % 256];
        i := i + 1;
      }
      assert values[..count] == values;
    }

    /** The part that both read handlers share: the reply carrying `registers`. */
    method SendRegisters(buffer: array<byte>, length: nat, registers: array<uint16>)
      requires 8 <= length <= buffer.Length && registers.Length <= INPUT_COUNT
      requires Start(buffer[..length]) + Quantity(buffer[..length]) <= registers.Length
      modifies this`sent
      ensures sent == old(sent) + [ReadReply(buffer[..length], registers[..])]
    {
      var start := Word(buffer[2], buffer[3]);
      var count := Word(buffer[4], buffer[5]);
      var tx := new byte[3 + 2 * count + 2];
      tx[0] := buffer[0];
      tx[1] := buffer[1];
      tx[2] := 2 * count;
      assert tx[..3] == [buffer[0], buffer[1], 2 * count];
      FillRegisters(tx, registers, start, count);
      assert registers[..][start..start + count] == registers[start..start + count];
      Send(tx, 3 + 2 * count);
    }

    /** Modbus_HandleReadHoldingRegister. */
    method HandleReadHoldingRegister(buffer: array<byte>, length: nat)
      requires Valid() && 8 <= length <= buffer.Length
      modifies this`sent
      ensures sent == old(sent) + [ReadReply(buffer[..length], holdingRegisters[..])]
    {
      var start, count := Word(buffer[2], buffer[3]), Word(buffer[4], buffer[5]);
      if start + count <= HOLDING_COUNT {
        SendRegisters(buffer, length, holdingRegisters);
      } else {
        SendError(buffer[0], buffer[1], ILLEGAL_DATA_ADDRESS);
      }
    }

    /** Modbus_HandleReadInputRegister: the input registers take the current resistances, cut to 16 bits. */
    method HandleReadInputRegister(buffer: array<byte>, length: nat)
      requires Valid() && 8 <= length <= buffer.Length
      modifies this`sent, inputRegisters
      ensures inputRegisters[..] == if Start(buffer[..length]) + Quantity(buffer[..length]) <= INPUT_COUNT
                                    then Truncated(Resistance()) else old(inputRegisters[..])
      ensures sent == old(sent) + [ReadReply(buffer[..length], inputRegisters[..])]
    {
      var start, count := Word(buffer[2], buffer[3]), Word(buffer[4], buffer[5]);
      if start + count <= INPUT_COUNT {
        var i := 0;
        while i < STRIP_COUNT
          invariant 0 <= i <= STRIP_COUNT
          invariant forall j | 0 <= j < i :: inputRegisters[j] == resistanceArray[j] % 65536
          modifies inputRegisters
        {
          inputRegisters[i] := resistanceArray[i] % 65536;
          i := i + 1;
        }
        SendRegisters(buffer, length, inputRegisters);
      } else {
        SendError(buffer[0], buffer[1], ILLEGAL_DATA_ADDRESS);
      }
    }

    /** Copies the holding registers and applies them, as both write handlers do. */
    method ApplyRegisters()
      requires Valid()
      modifies this`waveType, this`dutyCycle, this`desiredFrequency, this`desiredAmplitude, this`excitationVoltage,
        this`muxFreq, this`stripCount, this`modbusParamChanged, activeStrips
      ensures View() == Stored(old(View()), holdingRegisters[..])
    {
      var params := new uint16[HOLDING_COUNT];
      forall i | 0 <= i < HOLDING_COUNT {
        params[i] := holdingRegisters[i];
      }
      assert params[..] == holdingRegisters[..];
      UpdateParameters(params);
    }

    /** Sends back the first six bytes of a request under a fresh check value. */
    method Echo(buffer: array<byte>, length: nat)
      requires 8 <= length <= buffer.Length
      modifies this`sent
      ensures sent == old(sent) + [WithCrc(buffer[..length][..6])]
    {
      var tx := new byte[8];
      forall i | 0 <= i < 6 {
        tx[i] := buffer[i];
      }
      assert tx[..6] == buffer[..length][..6];
      Send(tx, 6);
    }

    /** Modbus_HandleWriteSingleRegister. */
    method HandleWriteSingleRegister(buffer: array<byte>, length: nat)
      requires Valid() && 8 <= length <= buffer.Length
      modifies this`waveType, this`dutyCycle, this`desiredFrequency, this`desiredAmplitude, this`excitationVoltage,
        this`muxFreq, this`stripCount, this`modbusParamChanged, this`sent, holdingRegisters, activeStrips
      ensures var frame := buffer[..length];
              if Start(frame) < HOLDING_COUNT
              then View() == Stored(old(View()), old(holdingRegisters[..])[Start(frame) := Quantity(frame)])
                   && sent == old(sent) + [WithCrc(frame[..6])]
              else View() == old(View()) && sent == old(sent) + [Exception(frame, ILLEGAL_DATA_ADDRESS)]
    {
      var address, value := Word(buffer[2], buffer[3]), Word(buffer[4], buffer[5]);
      if address < HOLDING_COUNT {
        holdingRegisters[address] := value;
        assert holdingRegisters[..] == old(holdingRegisters[..])[address := value];
        ApplyRegisters();
        Echo(buffer, length);
      } else {
        SendError(buffer[0], buffer[1], ILLEGAL_DATA_ADDRESS);
      }
    }

    /** The data loop of Modbus_HandleWriteMultipleRegisters. */
    method StorePayload(buffer: array<byte>, length: nat, start: nat, count: nat)
      requires Valid() && 7 + 2 * count <= length <= buffer.Length && start + count <= HOLDING_COUNT
      modifies holdingRegisters
      ensures holdingRegisters[..] == Overwrite(old(holdingRegisters[..]), start, Payload(buffer[..length], count))
    {
      ghost var was, values := holdingRegisters[..], Payload(buffer[..length], count);
      assert Overwrite(was, start, values[..0]) == was;
      var i := 0;
      while i < count
        invariant 0 <= i <= count
        invariant holdingRegisters[..] == Overwrite(was, start, values[..i])
      {
        OverwriteNext(was, start, values[..i], values[i]);
        assert values[..i + 1] == values[..i] + [values[i]];
        holdingRegisters[start + i] := Word(buffer[7 + i * 2], buffer[8 + i * 2]);
        i := i + 1;
      }
      assert values[..count] == values;
    }

    /** Modbus_HandleWriteMultipleRegisters. */
    method HandleWriteMultipleRegisters(buffer: array<byte>, length: nat)
      requires Valid() && 8 <= length <= buffer.Length
      requires length >= 9 ==> length >= 9 + buffer[6] as nat
      modifies this`waveType, this`dutyCycle, this`desiredFrequency, this`desiredAmplitude, this`excitationVoltage,
        this`muxFreq, this`stripCount, this`modbusParamChanged, this`sent, holdingRegisters, activeStrips
      ensures var frame := buffer[..length];
              if length < 9 then View() == old(View()) && sent == old(sent)
              else if WellCounted(frame) && Start(frame) + Quantity(frame) <= HOLDING_COUNT
              then View() == Stored(old(View()), Overwrite(old(holdingRegisters[..]), Start(frame), Payload(frame, Quantity(frame))))
                   && sent == old(sent) + [WithCrc(frame[..6])]
              else View() == old(View()) && sent == old(sent) + [Exception(frame, ILLEGAL_DATA_ADDRESS)]
    {
      if length < 9 {
        return;
      }
      var start, count := Word(buffer[2], buffer[3]), Word(buffer[4], buffer[5]);
      var byteCount := buffer[6];
      if count < 1 || count > 123 || byteCount != count * 2 {
        SendError(buffer[0], buffer[1], ILLEGAL_DATA_ADDRESS);
        return;
      }
      if start + count <= HOLDING_COUNT {
        StorePayload(buffer, length, start, count);
        ApplyRegisters();
        Echo(buffer, length);
      } else {
        SendError(buffer[0], buffer[1], ILLEGAL_DATA_ADDRESS);
      }
    }

    /** Modbus_HandleRequest: the slave and the line go exactly where `Serve` says. */
    method HandleRequest(buffer: array<byte>, length: nat)
      requires Valid() && length <= buffer.Length
      requires length >= 9 && buffer[1] == WRITE_MULTIPLE ==> length >= 9 + buffer[6] as nat
      modifies this`waveType, this`dutyCycle, this`desiredFrequency, this`desiredAmplitude, this`excitationVoltage,
        this`muxFreq, this`stripCount, this`modbusParamChanged, this`sent, holdingRegisters, inputRegisters, activeStrips
      ensures View() == Serve(old(View()), buffer[..length], Resistance()).slave
      ensures sent == old(sent) + Transmission(Serve(old(View()), buffer[..length], Resistance()).reply)
    {
      if length < 8 {
        return;
      }
      if buffer[0] != ADDRESS {
        return;
      }
      if buffer[1] == READ_INPUT {
        HandleReadInputRegister(buffer, length);
      } else if buffer[1] == READ_HOLDING {
        HandleReadHoldingRegister(buffer, length);
      } else if buffer[1] == WRITE_SINGLE {
        HandleWriteSingleRegister(buffer, length);
      } else if buffer[1] == WRITE_MULTIPLE {
        HandleWriteMultipleRegisters(buffer, length);
      } else {
        SendError(buffer[0], buffer[1], ILLEGAL_FUNCTION);
      }
    }

    /** A read of one byte: it succeeds or, at the end of a burst, fails; then the next burst follows. */
    method ReadByte() returns (next: byte, ok: bool)
      modifies this`incoming, this`later
      ensures ok <==> old(incoming) != []
      ensures ok ==> next == old(incoming)[0] && incoming == old(incoming)[1..] && later == old(later)
      ensures !ok ==> [incoming] + later == AfterFailure(old(later))
    {
      if incoming != [] {
        next, ok := incoming[0], true;
        incoming := incoming[1..];
      } else {
        next, ok := 0, false;
        if later != [] {
          incoming, later := later[0], later[1..];
        }
      }
    }

    /** Puts one more byte into the buffer. */
    method Store(rxBuffer: array<byte>, length: nat, next: byte)
      requires length < rxBuffer.Length
      modifies rxBuffer
      ensures rxBuffer[..length + 1] == old(rxBuffer[..length]) + [next]
    {
      rxBuffer[length] := next;
    }

    /**
     The receive loop of HandleModbusFrame: fills the buffer until it holds a whole frame.  An
     incomplete or overlong frame takes every byte up to the next failing read, which drops it;
     a call made while the change flag is up takes one byte and drops it.
     */
    method Receive(rxBuffer: array<byte>) returns (length: nat, complete: bool)
      requires rxBuffer.Length == BUFFER_LENGTH
      modifies this`incoming, this`later, rxBuffer
      ensures modbusParamChanged && old(incoming) != [] ==>
                !complete && incoming == old(incoming)[1..] && later == old(later)
      ensures old(incoming) == [] || (!modbusParamChanged && !complete) ==>
                !complete && FirstFrame(old(incoming)) == None && [incoming] + later == AfterFailure(old(later))
      ensures complete ==>
                && !modbusParamChanged && FirstFrame(old(incoming)) == Some(length)
                && incoming == old(incoming)[length..] && later == old(later)
                && rxBuffer[..length] == old(incoming)[..length]
    {
      length, complete := 0, false;
      ghost var stream, after := incoming, later;
      ghost var taken := 0;
      var next, ok := ReadByte();
      while ok && !modbusParamChanged
        invariant ok ==> 0 <= taken < |stream| && next == stream[taken] && incoming == stream[taken + 1..] && later == after
        invariant !ok ==> taken == |stream| && [incoming] + later == AfterFailure(after)
        invariant taken > 0 ==> !modbusParamChanged
        invariant length == if taken <= BUFFER_LENGTH then taken else BUFFER_LENGTH
        invariant rxBuffer[..length] == stream[..length]
        invariant length >= 8 ==> FrameLength(stream) > length
        decreases |stream| - taken, ok
      {
        if length < BUFFER_LENGTH {
          Store(rxBuffer, length, next);
          assert stream[..length + 1] == stream[..length] + [next];
          length := length + 1;
        }
        taken := taken + 1;
        if length >= 8 {
          var expectedLength := 8;
          if rxBuffer[1] == WRITE_MULTIPLE {
            expectedLength := 9 + rxBuffer[6] as nat;
          }
          assert rxBuffer[..length][1] == stream[1] && rxBuffer[..length][6] == stream[6];
          if length == expectedLength {
            return length, true;
          }
        }
        assert incoming == stream[taken..];
        assert taken < |stream| ==> stream[taken..][0] == stream[taken] && stream[taken..][1..] == stream[taken + 1..];
        next, ok := ReadByte();
      }
    }

    /** HandleModbusFrame: serves the first frame on the line, or drops all there is before the next failing read. */
    method HandleModbusFrame()
      requires Valid()
      modifies this, holdingRegisters, inputRegisters, activeStrips
      ensures Valid() && reinitialised == old(reinitialised)
      ensures old(modbusParamChanged) ==>
                (if old(incoming) == [] then [incoming] + later == AfterFailure(old(later))
                 else incoming == old(incoming)[1..] && later == old(later))
                && View() == old(View()) && sent == old(sent)
      ensures !old(modbusParamChanged) ==>
                match FirstFrame(old(incoming))
                case None => [incoming] + later == AfterFailure(old(later)) && View() == old(View()) && sent == old(sent)
                case Some(n) =>
                  var served := Serve(old(View()), old(incoming)[..n], Resistance());
                  incoming == old(incoming)[n..] && later == old(later) && View() == served.slave
                  && sent == old(sent) + Transmission(served.reply)
    {
      var rxBuffer := new byte[BUFFER_LENGTH](_ => 0);
      var length, complete := Receive(rxBuffer);
      if complete {
        HandleRequest(rxBuffer, length);
      }
    }

    /** One turn of the main loop: a frame that changes a parameter reinitialises the peripherals. */
    method Turn()
      requires Valid() && !modbusParamChanged
      modifies this, holdingRegisters, inputRegisters, activeStrips
      ensures Valid() && !modbusParamChanged
      ensures match FirstFrame(old(incoming))
              case None =>
                [incoming] + later == AfterFailure(old(later))
                && View() == old(View()) && sent == old(sent) && reinitialised == old(reinitialised)
              case Some(n) =>
                var turn := Poll(old(View()), [Request(old(incoming)[..n], Resistance())]);
                incoming == old(incoming)[n..] && later == old(later)
                && View() == turn.slave && sent == old(sent) + turn.sent
                && reinitialised == old(reinitialised) + turn.reinitialised
    {
      ghost var first, slave := FirstFrame(incoming), View();
      if first.Some? {
        PollOne(slave, Request(incoming[..first.value], Resistance()));
      }
      HandleModbusFrame();
      if modbusParamChanged {
        reinitialised := reinitialised + [LiveView()];
        modbusParamChanged := false;
      }
    }

    /** What interrupts do to the resistances between two turns: anything. */
    method Interrupts()
      requires Valid()
      modifies resistanceArray
    {
      var i := 0;
      while i < INPUT_COUNT
        invariant 0 <= i <= INPUT_COUNT
      {
        resistanceArray[i] := *;
        i := i + 1;
      }
    }

    /** What the loop has done since the slave was `start`: served `frames`, which met the resistances `met`. */
    ghost predicate Progress(start: Slave, sentBefore: seq<seq<byte>>, reinitialisedBefore: seq<Live>,
                             frames: seq<Frame>, met: seq<Resistances>)
      requires Valid()
      reads this, holdingRegisters, inputRegisters, activeStrips
    {
      && |met| == |frames|
      && var polled := Poll(start, Requests(frames, met));
         && View() == polled.slave && sent == sentBefore + polled.sent
         && reinitialised == reinitialisedBefore + polled.reinitialised
    }

    /** A turn of the main loop, after which the line is shorter. */
    method Round(ghost start: Slave, ghost sentBefore: seq<seq<byte>>, ghost reinitialisedBefore: seq<Live>,
                 ghost bursts: seq<seq<byte>>, ghost frames: seq<Frame>, ghost met: seq<Resistances>)
      returns (ghost frames': seq<Frame>, ghost met': seq<Resistances>)
      requires Valid() && !modbusParamChanged && (incoming != [] || later != [])
      requires Progress(start, sentBefore, reinitialisedBefore, frames, met) && Divided(bursts, frames, incoming, later)
      modifies this, holdingRegisters, inputRegisters, activeStrips, resistanceArray
      ensures Valid() && !modbusParamChanged
      ensures Progress(start, sentBefore, reinitialisedBefore, frames', met') && Divided(bursts, frames', incoming, later)
      ensures |later| < |old(later)| || (later == old(later) && |incoming| < |old(incoming)|)
    {
      Interrupts();
      ghost var rest, after, slave, first, r := incoming, later, View(), FirstFrame(incoming), Resistance();
      Turn();
      if first.Some? {
        ghost var frame: Frame := rest[..first.value];
        ghost var polled, turn := Poll(start, Requests(frames, met)), Poll(slave, [Request(frame, r)]);
        PollNext(start, frames, met, frame, r);
        Assoc(sentBefore, polled.sent, turn.sent);
        Assoc(reinitialisedBefore, polled.reinitialised, turn.reinitialised);
        DividedFrame(bursts, frames, rest, later);
        frames', met' := frames + [frame], met + [r];
      } else {
        DividedBurst(bursts, frames, rest, after, incoming, later);
        frames', met' := frames, met;
      }
    }

    /**
     The main loop of Modbus mode, until the line falls silent for ever; `met` is what the
     resistances were as each frame was served.
     */
    method MainLoop() returns (ghost met: seq<Resistances>)
      requires Valid() && !modbusParamChanged
      modifies this, holdingRegisters, inputRegisters, activeStrips, resistanceArray
      ensures Valid() && incoming == [] && later == []
      ensures |met| == |Delivered([old(incoming)] + old(later))|
      ensures var polled := Poll(old(View()), Requests(Delivered([old(incoming)] + old(later)), met));
              && View() == polled.slave
              && sent == old(sent) + polled.sent
              && reinitialised == old(reinitialised) + polled.reinitialised
    {
      ghost var bursts, start := [incoming] + later, View();
      ghost var frames: seq<Frame> := [];
      met := [];
      assert bursts[0] == incoming && bursts[1..] == later;
      while incoming != [] || later != []
        invariant Valid() && !modbusParamChanged
        invariant Progress(start, old(sent), old(reinitialised), frames, met) && Divided(bursts, frames, incoming, later)
        decreases |later|, |incoming|
      {
        frames, met := Round(start, old(sent), old(reinitialised), bursts, frames, met);
      }
      DividedEnd(bursts, frames);
    }
  }

  // ----- Bursts -----

  /** The line after a read has failed. */
  function AfterFailure(later: seq<seq<byte>>): seq<seq<byte>> {
    if later == [] then [[]] else later
  }

  /** The frames served so far, with what is still on the line. */
  ghost predicate Divided(bursts: seq<seq<byte>>, frames: seq<Frame>, incoming: seq<byte>, later: seq<seq<byte>>) {
    Delivered(bursts) == frames + (Divide(incoming).frames + Delivered(later))
  }

  lemma DividedBurst(bursts: seq<seq<byte>>, frames: seq<Frame>, incoming: seq<byte>, later: seq<seq<byte>>,
                    incoming': seq<byte>, later': seq<seq<byte>>)
    requires Divided(bursts, frames, incoming, later)
    requires FirstFrame(incoming) == None && [incoming'] + later' == AfterFailure(later)
    ensures Divided(bursts, frames, incoming', later')
    ensures if later == [] then incoming' == [] && later' == [] else |later'| < |later|
  {
    assert incoming' == ([incoming'] + later')[0] && later' == ([incoming'] + later')[1..];
    Unit(Delivered(later));
  }

  lemma DividedEnd(bursts: seq<seq<byte>>, frames: seq<Frame>)
    requires Divided(bursts, frames, [], [])
    ensures Delivered(bursts) == frames
  {
    assert Divide([]).frames == [] && Delivered([]) == [];
  }

  lemma DividedFrame(bursts: seq<seq<byte>>, frames: seq<Frame>, incoming: seq<byte>, later: seq<seq<byte>>)
    requires FirstFrame(incoming).Some? && Divided(bursts, frames, incoming, later)
    ensures var n := FirstFrame(incoming).value;
            Divided(bursts, frames + [incoming[..n]], incoming[n..], later)
  {
    var n := FirstFrame(incoming).value;
    var frame: Frame := incoming[..n];
    Assoc([frame], Divide(incoming[n..]).frames, Delivered(later));
    Assoc(frames, [frame], Divide(incoming[n..]).frames + Delivered(later));
  }

  lemma PollNext(slave: Slave, frames: seq<Frame>, met: seq<Resistances>, frame: Frame, resistance: Resistances)
    requires |met| == |frames|
    ensures var before := Poll(slave, Requests(frames, met));
            var turn := Poll(before.slave, [Request(frame, resistance)]);
            Poll(slave, Requests(frames + [frame], met + [resistance]))
            == Polled(turn.slave, before.sent + turn.sent, before.reinitialised + turn.reinitialised)
  {
    RequestsAppend(frames, met, frame, resistance);
    PollTurn(slave, Requests(frames, met), Request(frame, resistance));
  }
}
