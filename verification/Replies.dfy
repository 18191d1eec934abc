/** What every reply of the slave satisfies, whatever the request. */
module Replies {
  import opened Binary
  import opened Crc16
  import opened Parameters
  import opened Modbus
  import opened Wrappers

  /** A request the slave carries out, told from its bytes alone. */
  predicate Granted(frame: seq<byte>)
    requires Complete(frame)
  {
    && frame[0] == ADDRESS
    && (|| (frame[1] == READ_HOLDING && Start(frame) + Quantity(frame) <= HOLDING_COUNT)
        || (frame[1] == READ_INPUT && Start(frame) + Quantity(frame) <= INPUT_COUNT)
        || (frame[1] == WRITE_SINGLE && Start(frame) < HOLDING_COUNT)
        || (frame[1] == WRITE_MULTIPLE && WellCounted(frame) && Start(frame) + Quantity(frame) <= HOLDING_COUNT))
  }

  /** A granted request that changes holding registers. */
  predicate GrantedWrite(frame: seq<byte>)
    requires Complete(frame)
  {
    Granted(frame) && frame[1] in {WRITE_SINGLE, WRITE_MULTIPLE}
  }

  /** Why a request is refused. */
  function Reason(frame: seq<byte>): byte
    requires Complete(frame)
  {
    if frame[1] in {READ_HOLDING, READ_INPUT, WRITE_SINGLE, WRITE_MULTIPLE}
    then ILLEGAL_DATA_ADDRESS else ILLEGAL_FUNCTION
  }

  /** One reply for the slave's own address, silence for every other. */
  lemma OneReplyPerRequest(slave: Slave, frame: seq<byte>, resistance: Resistances)
    requires Complete(frame)
    ensures Serve(slave, frame, resistance).reply.Some? <==> frame[0] == ADDRESS
  {
  }

  lemma WithCrcSound(m: seq<byte>)
    ensures Crc(WithCrc(m)) == 0 && |WithCrc(m)| == |m| + 2 && WithCrc(m)[..|m|] == m
  {
    CrcResidue(m);
  }

  lemma ReadReplySound(frame: seq<byte>, registers: seq<uint16>)
    requires |frame| >= 8 && |registers| <= INPUT_COUNT && Start(frame) + Quantity(frame) <= |registers|
    ensures var reply := ReadReply(frame, registers);
            5 <= |reply| <= 21 && Crc(reply) == 0 && reply[0] == frame[0] && reply[1] == frame[1]
  {
    var n := Quantity(frame);
    var m := [frame[0], frame[1], 2 * n] + BigEndian(registers[Start(frame)..Start(frame) + n]);
    WithCrcSound(m);
    assert WithCrc(m)[0] == m[0] && WithCrc(m)[1] == m[1];
  }

  lemma GrantedReplySound(slave: Slave, frame: seq<byte>, resistance: Resistances)
    requires Complete(frame) && Granted(frame)
    ensures Serve(slave, frame, resistance).reply.Some?
    ensures var reply := Serve(slave, frame, resistance).reply.value;
            5 <= |reply| <= 21 && Crc(reply) == 0 && reply[0] == ADDRESS && reply[1] == frame[1]
  {
    if frame[1] == READ_HOLDING {
      ReadReplySound(frame, slave.holding);
    } else if frame[1] == READ_INPUT {
      ReadReplySound(frame, Truncated(resistance));
    } else {
      WithCrcSound(frame[..6]);
      assert WithCrc(frame[..6])[0] == frame[0] && WithCrc(frame[..6])[1] == frame[1];
    }
  }

  lemma RefusedReply(slave: Slave, frame: seq<byte>, resistance: Resistances)
    requires Complete(frame) && frame[0] == ADDRESS && !Granted(frame)
    ensures Serve(slave, frame, resistance).reply == Some(Exception(frame, Reason(frame)))
  {
  }

  /**
   Every reply fits in 21 bytes and checks to 0.  It repeats the request's function code when
   the request is granted; otherwise the code's top bit is set and the reason follows.
   */
  lemma ReplySound(slave: Slave, frame: seq<byte>, resistance: Resistances)
    requires Complete(frame) && frame[0] == ADDRESS
    ensures Serve(slave, frame, resistance).reply.Some?
    ensures var reply := Serve(slave, frame, resistance).reply.value;
            && 5 <= |reply| <= 21 && Crc(reply) == 0
            && reply[0] == ADDRESS
            && (Granted(frame) <==> reply[1] < 128)
            && (Granted(frame) ==> reply[1] == frame[1])
            && (!Granted(frame) ==> |reply| == 5 && reply[1] % 128 == frame[1] % 128 && reply[2] == Reason(frame))
  {
    if Granted(frame) {
      GrantedReplySound(slave, frame, resistance);
    } else {
      RefusedReply(slave, frame, resistance);
      var m := [frame[0], ErrorCode(frame[1]), Reason(frame)];
      WithCrcSound(m);
      assert WithCrc(m)[0] == m[0] && WithCrc(m)[1] == m[1] && WithCrc(m)[2] == m[2];
    }
  }

  /** Only granted writes touch the holding registers, the live configuration or the change flag. */
  lemma RefusedChangesNothing(slave: Slave, frame: seq<byte>, resistance: Resistances)
    requires Complete(frame) && !GrantedWrite(frame)
    ensures var slave' := Serve(slave, frame, resistance).slave;
            slave' == slave.(input := slave'.input)
            && (!Granted(frame) ==> slave' == slave)
  {
  }

  /** The answer to a single write repeats the request exactly when the request's own check value was right. */
  lemma EchoTellsRequestCrc(slave: Slave, frame: seq<byte>, resistance: Resistances)
    requires Complete(frame)
    requires Granted(frame) && frame[1] == WRITE_SINGLE
    ensures Serve(slave, frame, resistance).reply == Some(frame) <==> Crc(frame) == 0
  {
    var m := frame[..6];
    assert frame == m + [frame[6], frame[7]];
    CrcResidueExact(m, frame[6], frame[7]);
    assert WithCrc(m)[6] == Low(Crc(m)) && WithCrc(m)[7] == High(Crc(m));
  }

  // ----- Registers in a read reply -----

  lemma {:induction false} BigEndianAt(values: seq<uint16>, i: nat)
    requires i < |values|
    ensures Word(BigEndian(values)[2 * i], BigEndian(values)[2 * i + 1]) == values[i]
  {
    var last := |values| - 1;
    if i == last {
    } else {
      BigEndianAt(values[..last], i);
      assert BigEndian(values)[..2 * last] == BigEndian(values[..last]);
    }
  }

  /** The register that a granted read reply carries in place i. */
  function Carried(reply: seq<byte>, i: nat): uint16
    requires |reply| >= 5 + 2 * i
  {
    Word(reply[3 + 2 * i], reply[4 + 2 * i])
  }

  lemma WordInside(header: seq<byte>, body: seq<byte>, tail: seq<byte>, i: nat)
    requires |header| == 3 && |tail| == 2 && 2 * i + 1 < |body|
    ensures Carried(header + body + tail, i) == Word(body[2 * i], body[2 * i + 1])
  {
    Inside(header, body, tail, 2 * i);
    Inside(header, body, tail, 2 * i + 1);
  }

  lemma CarriedAt(header: seq<byte>, values: seq<uint16>, i: nat)
    requires |header| == 3 && i < |values|
    ensures Carried(WithCrc(header + BigEndian(values)), i) == values[i]
  {
    var m := header + BigEndian(values);
    BigEndianAt(values, i);
    WordInside(header, BigEndian(values), [Low(Crc(m)), High(Crc(m))], i);
  }

  /** A granted read carries exactly the registers asked for, high byte first, and nothing else. */
  lemma ReadReplyCarries(frame: seq<byte>, registers: seq<uint16>, i: nat)
    requires |frame| >= 8 && |registers| <= INPUT_COUNT
    requires Start(frame) + Quantity(frame) <= |registers|
    ensures |ReadReply(frame, registers)| == 5 + 2 * Quantity(frame)
    ensures ReadReply(frame, registers)[2] == 2 * Quantity(frame)
    ensures i < Quantity(frame) ==> Carried(ReadReply(frame, registers), i) == registers[Start(frame) + i]
  {
    var values := registers[Start(frame)..Start(frame) + Quantity(frame)];
    var header := [frame[0], frame[1], 2 * Quantity(frame)];
    assert ReadReply(frame, registers) == WithCrc(header + BigEndian(values));
    if i < Quantity(frame) {
      CarriedAt(header, values, i);
    }
  }

  /** A granted read of input registers carries the current resistances, cut to 16 bits. */
  lemma InputReadCarries(slave: Slave, frame: seq<byte>, resistance: Resistances, i: nat)
    requires Complete(frame) && Granted(frame) && frame[1] == READ_INPUT && i < Quantity(frame)
    ensures var reply := Serve(slave, frame, resistance).reply;
            && reply.Some? && |reply.value| == 5 + 2 * Quantity(frame)
            && Carried(reply.value, i) == resistance[Start(frame) + i] % 65536
  {
    ReadReplyCarries(frame, Truncated(resistance), i);
  }

  /** A granted write is answered with the first six bytes of the request. */
  lemma WriteEchoes(slave: Slave, frame: seq<byte>, resistance: Resistances)
    requires Complete(frame) && GrantedWrite(frame)
    ensures var reply := Serve(slave, frame, resistance).reply;
            && reply.Some? && |reply.value| == 8 && reply.value[..6] == frame[..6]
            && reply.value[6] == Low(Crc(frame[..6])) && reply.value[7] == High(Crc(frame[..6]))
  {
    WithCrcSound(frame[..6]);
  }
}
