/**
 The protocol in plain numbers: what the slave answers and stores for every request that the
 receive loop can deliver, told from the bytes of the request alone (sections 6.3, 6.4, 6.6,
 6.12 and 7 of MODBUS Application Protocol V1.1b3, as far as the firmware follows them).
 */
module Protocol {
  import opened Binary
  import opened Crc16
  import opened Framing
  import opened Modbus
  import opened Parameters
  import opened Replies
  import opened Wrappers
  import Sessions

  /** A word as two bytes carry it, the high one first. */
  function Pair(hi: byte, lo: byte): nat {
    256 * hi as nat + lo as nat
  }

  /** The first register a request names, and the number or the value that follows. */
  function Address(frame: seq<byte>): nat
    requires |frame| >= 8
  {
    Pair(frame[2], frame[3])
  }

  function Amount(frame: seq<byte>): nat
    requires |frame| >= 8
  {
    Pair(frame[4], frame[5])
  }

  lemma SameNumbers(frame: seq<byte>)
    requires |frame| >= 8
    ensures Address(frame) == Start(frame) && Amount(frame) == Quantity(frame)
  {
  }

  /** A body followed by its check value. */
  ghost predicate Checked(reply: Option<seq<byte>>, body: seq<byte>) {
    && reply.Some? && |reply.value| == |body| + 2 && reply.value[..|body|] == body
    && Crc(reply.value) == 0
  }

  /** A read reply: address, code, byte count, the values with their high bytes first, and a check value. */
  ghost predicate Carries(reply: Option<seq<byte>>, code: byte, values: seq<int>) {
    && reply.Some? && |reply.value| == 5 + 2 * |values| && Crc(reply.value) == 0
    && reply.value[0] == 0x01 && reply.value[1] == code && reply.value[2] as nat == 2 * |values|
    && forall i | 0 <= i < |values| :: Pair(reply.value[3 + 2 * i], reply.value[4 + 2 * i]) == values[i]
  }

  lemma WithCrcChecked(body: seq<byte>)
    ensures Checked(Some(WithCrc(body)), body)
  {
    WithCrcSound(body);
  }

  lemma ReadReplyPair(frame: seq<byte>, registers: seq<uint16>, i: nat)
    requires |frame| >= 8 && |registers| <= 8
    requires Start(frame) + Quantity(frame) <= |registers| && i < Quantity(frame)
    ensures |ReadReply(frame, registers)| == 5 + 2 * Quantity(frame)
    ensures Pair(ReadReply(frame, registers)[3 + 2 * i], ReadReply(frame, registers)[4 + 2 * i])
         == registers[Start(frame) + i]
  {
    ReadReplyCarries(frame, registers, i);
  }

  lemma ReadReplyHead(frame: seq<byte>, registers: seq<uint16>)
    requires |frame| >= 8 && |registers| <= 8 && frame[0] == 0x01
    requires Start(frame) + Quantity(frame) <= |registers|
    ensures var reply := ReadReply(frame, registers);
            && |reply| == 5 + 2 * Quantity(frame) && Crc(reply) == 0
            && reply[0] == 0x01 && reply[1] == frame[1] && reply[2] as nat == 2 * Quantity(frame)
  {
    ReadReplySound(frame, registers);
    ReadReplyCarries(frame, registers, 0);
  }

  lemma PairsCarry(reply: seq<byte>, code: byte, values: seq<int>)
    requires |reply| == 5 + 2 * |values| && Crc(reply) == 0
    requires reply[0] == 0x01 && reply[1] == code && reply[2] as nat == 2 * |values|
    requires forall i | 0 <= i < |values| :: Pair(reply[3 + 2 * i], reply[4 + 2 * i]) == values[i]
    ensures Carries(Some(reply), code, values)
  {
  }

  lemma SliceAt(registers: seq<uint16>, start: nat, n: nat, i: nat)
    requires start + n <= |registers| && i < n
    ensures registers[start..start + n][i] == registers[start + i]
  {
  }

  lemma ReadReplyCarriesAll(frame: seq<byte>, registers: seq<uint16>, values: seq<int>)
    requires |frame| >= 8 && |registers| <= 8 && frame[0] == 0x01
    requires Start(frame) + Quantity(frame) <= |registers|
    requires values == registers[Start(frame)..Start(frame) + Quantity(frame)]
    ensures Carries(Some(ReadReply(frame, registers)), frame[1], values)
  {
    var reply, start, n := ReadReply(frame, registers), Start(frame), Quantity(frame);
    ReadReplyHead(frame, registers);
    forall i | 0 <= i < |values| ensures Pair(reply[3 + 2 * i], reply[4 + 2 * i]) == values[i] {
      ReadReplyPair(frame, registers, i);
      SliceAt(registers, start, n, i);
    }
    PairsCarry(reply, frame[1], values);
  }

  // ----- Reads -----

  /** The branches of the dispatcher, one at a time. */
  lemma ReadHoldingBranch(slave: Slave, frame: seq<byte>, resistance: Resistances)
    requires |frame| == 8 && frame[0] == 0x01 && frame[1] == 0x03
    ensures Serve(slave, frame, resistance) == Served(slave, Some(ReadReply(frame, slave.holding)))
  {
  }

  lemma ReadInputBranch(slave: Slave, frame: seq<byte>, resistance: Resistances)
    requires |frame| == 8 && frame[0] == 0x01 && frame[1] == 0x04
    ensures Serve(slave, frame, resistance)
         == if Address(frame) + Amount(frame) <= 8
            then Served(slave.(input := Truncated(resistance)), Some(ReadReply(frame, Truncated(resistance))))
            else Served(slave, Some(ReadReply(frame, slave.input)))
  {
  }

  lemma ReadRefused(frame: seq<byte>, registers: seq<uint16>)
    requires |frame| == 8 && frame[0] == 0x01 && frame[1] < 0x80
    requires |registers| <= 8 && Address(frame) + Amount(frame) > |registers|
    ensures Checked(Some(ReadReply(frame, registers)), [0x01, frame[1] + 0x80, 0x02])
  {
    WithCrcChecked([0x01, frame[1] + 0x80, 0x02]);
  }

  /** 0x03: up to seven holding registers from 0 on, else exception 2; nothing changes. */
  lemma ReadHoldingServed(slave: Slave, frame: seq<byte>, resistance: Resistances)
    requires |frame| == 8 && frame[0] == 0x01 && frame[1] == 0x03
    ensures var served := Serve(slave, frame, resistance);
            && served.slave == slave
            && if Address(frame) + Amount(frame) <= 7
               then Carries(served.reply, 0x03, slave.holding[Address(frame)..Address(frame) + Amount(frame)])
               else Checked(served.reply, [0x01, 0x83, 0x02])
  {
    ReadHoldingBranch(slave, frame, resistance);
    if Address(frame) + Amount(frame) <= 7 {
      ReadReplyCarriesAll(frame, slave.holding, slave.holding[Address(frame)..Address(frame) + Amount(frame)]);
    } else {
      ReadRefused(frame, slave.holding);
    }
  }

  /** n resistances from place a on, cut to 16 bits. */
  function Cut(resistance: Resistances, a: nat, n: nat): seq<int>
    requires a + n <= 8
  {
    seq(n, i requires 0 <= i < n => resistance[a + i] % 65536)
  }

  lemma CutIs(resistance: Resistances, a: nat, n: nat)
    requires a + n <= 8
    ensures Cut(resistance, a, n) == Truncated(resistance)[a..a + n]
    ensures Cut(resistance, 0, 8) == Truncated(resistance)
  {
  }

  /** 0x04: up to eight resistances from 0 on, cut to 16 bits, else exception 2; only the input registers change. */
  lemma ReadInputServed(slave: Slave, frame: seq<byte>, resistance: Resistances)
    requires |frame| == 8 && frame[0] == 0x01 && frame[1] == 0x04
    ensures var served := Serve(slave, frame, resistance);
            if Address(frame) + Amount(frame) <= 8
            then && served.slave == slave.(input := served.slave.input)
                 && served.slave.input == Cut(resistance, 0, 8)
                 && Carries(served.reply, 0x04, Cut(resistance, Address(frame), Amount(frame)))
            else Checked(served.reply, [0x01, 0x84, 0x02]) && served.slave == slave
  {
    ReadInputBranch(slave, frame, resistance);
    if Address(frame) + Amount(frame) <= 8 {
      SameNumbers(frame);
      CutIs(resistance, Address(frame), Amount(frame));
      ReadReplyCarriesAll(frame, Truncated(resistance), Cut(resistance, Address(frame), Amount(frame)));
    } else {
      ReadRefused(frame, slave.input);
    }
  }

  // ----- Writes -----

  lemma SingleGranted(slave: Slave, frame: seq<byte>, resistance: Resistances)
    requires |frame| == 8 && frame[0] == 0x01 && frame[1] == 0x06 && Start(frame) < 7
    ensures Serve(slave, frame, resistance)
         == Served(Stored(slave, slave.holding[Start(frame) := Quantity(frame)]), Some(WithCrc(frame[..6])))
  {
  }

  lemma SingleRefused(slave: Slave, frame: seq<byte>, resistance: Resistances)
    requires |frame| == 8 && frame[0] == 0x01 && frame[1] == 0x06 && Start(frame) >= 7
    ensures Serve(slave, frame, resistance) == Served(slave, Some(WithCrc([0x01, 0x86, 0x02])))
  {
  }

  lemma WriteSingleBranch(slave: Slave, frame: seq<byte>, resistance: Resistances)
    requires |frame| == 8 && frame[0] == 0x01 && frame[1] == 0x06
    ensures Serve(slave, frame, resistance)
         == if Address(frame) < 7
            then Served(Stored(slave, slave.holding[Address(frame) := Amount(frame)]), Some(WithCrc(frame[..6])))
            else Served(slave, Some(WithCrc([0x01, 0x86, 0x02])))
  {
    SameNumbers(frame);
    if Start(frame) < 7 {
      SingleGranted(slave, frame, resistance);
    } else {
      SingleRefused(slave, frame, resistance);
    }
  }

  /** 0x06: one of seven registers takes the value and the first six bytes come back, else exception 2. */
  lemma WriteSingleServed(slave: Slave, frame: seq<byte>, resistance: Resistances)
    requires |frame| == 8 && frame[0] == 0x01 && frame[1] == 0x06
    ensures var served := Serve(slave, frame, resistance);
            if Address(frame) < 7
            then && Checked(served.reply, frame[..6])
                 && served.slave == Stored(slave, slave.holding[Address(frame) := Amount(frame)])
                 && served.slave.holding == slave.holding[Address(frame) := Amount(frame)]
                 && served.slave.input == slave.input && served.slave.changed
            else Checked(served.reply, [0x01, 0x86, 0x02]) && served.slave == slave
  {
    WriteSingleBranch(slave, frame, resistance);
    WithCrcChecked(frame[..6]);
    WithCrcChecked([0x01, 0x86, 0x02]);
  }

  /** What a multiple write must say to be taken: one or more of the seven registers, two bytes for each. */
  predicate Acceptable(frame: seq<byte>)
    requires |frame| >= 8
  {
    1 <= Amount(frame) && Address(frame) + Amount(frame) <= 7 && frame[6] as nat == 2 * Amount(frame)
  }

  lemma AcceptableExactly(frame: seq<byte>)
    requires |frame| >= 8
    ensures Acceptable(frame) <==> WellCounted(frame) && Start(frame) + Quantity(frame) <= HOLDING_COUNT
  {
    SameNumbers(frame);
  }

  lemma MultipleGranted(slave: Slave, frame: seq<byte>, resistance: Resistances)
    requires |frame| >= 9 && frame[0] == 0x01 && frame[1] == 0x10 && |frame| == 9 + frame[6] as nat
    requires WellCounted(frame) && Start(frame) + Quantity(frame) <= HOLDING_COUNT
    ensures Serve(slave, frame, resistance)
         == Served(Stored(slave, Overwrite(slave.holding, Start(frame), Payload(frame, Quantity(frame)))),
                   Some(WithCrc(frame[..6])))
  {
  }

  lemma MultipleRefused(slave: Slave, frame: seq<byte>, resistance: Resistances)
    requires |frame| >= 9 && frame[0] == 0x01 && frame[1] == 0x10 && |frame| == 9 + frame[6] as nat
    requires !(WellCounted(frame) && Start(frame) + Quantity(frame) <= HOLDING_COUNT)
    ensures Serve(slave, frame, resistance) == Served(slave, Some(WithCrc([0x01, 0x90, 0x02])))
  {
  }

  lemma WriteMultipleBranch(slave: Slave, frame: seq<byte>, resistance: Resistances)
    requires |frame| >= 9 && frame[0] == 0x01 && frame[1] == 0x10 && |frame| == 9 + frame[6] as nat
    ensures Serve(slave, frame, resistance)
         == if Acceptable(frame)
            then Served(Stored(slave, Overwrite(slave.holding, Start(frame), Payload(frame, Quantity(frame)))),
                        Some(WithCrc(frame[..6])))
            else Served(slave, Some(WithCrc([0x01, 0x90, 0x02])))
  {
    AcceptableExactly(frame);
    if Acceptable(frame) {
      MultipleGranted(slave, frame, resistance);
    } else {
      MultipleRefused(slave, frame, resistance);
    }
  }

  /** The registers after a multiple write: those named take the values carried, the others stay. */
  ghost predicate Overwritten(before: HoldingRegisters, after: HoldingRegisters, frame: seq<byte>)
    requires |frame| >= 8 && |frame| >= 9 + 2 * Amount(frame)
  {
    forall r | 0 <= r < 7 ::
      after[r] == if Address(frame) <= r < Address(frame) + Amount(frame)
                  then Pair(frame[7 + 2 * (r - Address(frame))], frame[8 + 2 * (r - Address(frame))])
                  else before[r]
  }

  lemma PayloadOverwrites(before: HoldingRegisters, frame: seq<byte>)
    requires |frame| >= 8 && |frame| >= 9 + 2 * Amount(frame) && Address(frame) + Amount(frame) <= 7
    ensures Overwritten(before, Overwrite(before, Start(frame), Payload(frame, Quantity(frame))), frame)
  {
    var start, values := Start(frame), Payload(frame, Quantity(frame));
    forall r | 0 <= r < 7
      ensures Overwrite(before, start, values)[r]
           == if start <= r < start + |values| then values[r - start] else before[r]
    {
      Sessions.OverwriteAt(before, start, values, r);
    }
  }

  /**
   0x10: accepted exactly for one or more registers among the seven, with a byte count of twice
   their number; everything else gets exception 2 and changes nothing.
   */
  lemma WriteMultipleServed(slave: Slave, frame: seq<byte>, resistance: Resistances)
    requires |frame| >= 9 && frame[0] == 0x01 && frame[1] == 0x10 && |frame| == 9 + frame[6] as nat
    ensures var served := Serve(slave, frame, resistance);
            if Acceptable(frame)
            then && Checked(served.reply, frame[..6]) && served.slave == Stored(slave, served.slave.holding)
                 && Overwritten(slave.holding, served.slave.holding, frame)
                 && served.slave.input == slave.input && served.slave.changed
            else Checked(served.reply, [0x01, 0x90, 0x02]) && served.slave == slave
  {
    WriteMultipleBranch(slave, frame, resistance);
    WithCrcChecked(frame[..6]);
    WithCrcChecked([0x01, 0x90, 0x02]);
    if Acceptable(frame) {
      PayloadOverwrites(slave.holding, frame);
    }
  }

  /** The head of a multiple write. */
  function Head(start: byte, n: nat): (head: seq<byte>)
    requires n <= 7
    ensures |head| == 7
  {
    [0x01, 0x10, 0, start, 0, n, 2 * n]
  }

  lemma HeadInside(head: seq<byte>, rest: seq<byte>, n: nat)
    requires n <= |head|
    ensures (head + rest)[..n] == head[..n] && forall i | 0 <= i < n :: (head + rest)[i] == head[i]
  {
  }

  lemma PairInside(head: seq<byte>, body: seq<byte>, tail: seq<byte>, k: nat)
    requires |head| == 7 && k + 1 < |body|
    ensures Pair((head + body + tail)[7 + k], (head + body + tail)[8 + k]) == Pair(body[k], body[k + 1])
  {
    Inside(head, body, tail, k);
    Inside(head, body, tail, k + 1);
  }

  lemma PairOf(values: seq<uint16>, i: nat)
    requires i < |values|
    ensures Pair(BigEndian(values)[2 * i], BigEndian(values)[2 * i + 1]) == values[i]
  {
    BigEndianAt(values, i);
  }

  /** The bytes of a multiple write of given values, whatever two bytes come after them. */
  lemma WritingBytes(head: seq<byte>, values: seq<uint16>, tail: seq<byte>, i: nat)
    requires |head| == 7 && i < |values|
    ensures var frame := head + BigEndian(values) + tail;
            Pair(frame[7 + 2 * i], frame[8 + 2 * i]) == values[i]
  {
    PairInside(head, BigEndian(values), tail, 2 * i);
    PairOf(values, i);
  }

  lemma WritingHead(start: byte, values: seq<uint16>, tail: seq<byte>)
    requires 1 <= |values| && start as nat + |values| <= 7 && |tail| == 2
    ensures var frame := Head(start, |values|) + BigEndian(values) + tail;
            && Whole(frame) && frame[0] == 0x01 && frame[1] == 0x10 && Acceptable(frame)
            && Address(frame) == start as nat && Amount(frame) == |values| && |frame| == 9 + frame[6] as nat
            && frame[..6] == [0x01, 0x10, 0, start, 0, |values|]
  {
    var head := Head(start, |values|);
    Assoc(head, BigEndian(values), tail);
    HeadInside(head, BigEndian(values) + tail, 7);
    HeadInside(head, BigEndian(values) + tail, 6);
  }

  /** Any one to seven values written to registers that exist are stored there, and the request is echoed. */
  lemma ValuesStored(slave: Slave, start: byte, values: seq<uint16>, tail: seq<byte>, resistance: Resistances)
    requires 1 <= |values| && start as nat + |values| <= 7 && |tail| == 2
    ensures var frame := Head(start, |values|) + BigEndian(values) + tail;
            && Whole(frame)
            && var served := Serve(slave, frame, resistance);
               && Checked(served.reply, [0x01, 0x10, 0, start, 0, |values|])
               && Placed(slave.holding, served.slave.holding, start as nat, values)
  {
    var frame := Head(start, |values|) + BigEndian(values) + tail;
    WritingHead(start, values, tail);
    forall i | 0 <= i < |values| ensures Pair(frame[7 + 2 * i], frame[8 + 2 * i]) == values[i] {
      WritingBytes(Head(start, |values|), values, tail, i);
    }
    CarriedStored(slave, frame, values, resistance);
  }

  /** Register `start` + i holds value i, and the others hold what they held. */
  ghost predicate Placed(before: HoldingRegisters, after: HoldingRegisters, start: nat, values: seq<uint16>) {
    forall r | 0 <= r < 7 :: after[r] == if start <= r < start + |values| then values[r - start] else before[r]
  }

  lemma CarriedStored(slave: Slave, frame: seq<byte>, values: seq<uint16>, resistance: Resistances)
    requires |frame| >= 9 && frame[0] == 0x01 && frame[1] == 0x10 && |frame| == 9 + frame[6] as nat
    requires Acceptable(frame) && Amount(frame) == |values|
    requires forall i | 0 <= i < |values| :: Pair(frame[7 + 2 * i], frame[8 + 2 * i]) == values[i]
    ensures var served := Serve(slave, frame, resistance);
            && Checked(served.reply, frame[..6])
            && Placed(slave.holding, served.slave.holding, Address(frame), values)
  {
    WriteMultipleServed(slave, frame, resistance);
    ValuesOverwrite(slave.holding, Serve(slave, frame, resistance).slave.holding, frame, values);
  }

  lemma ValuesOverwrite(before: HoldingRegisters, after: HoldingRegisters, frame: seq<byte>, values: seq<uint16>)
    requires |frame| >= 8 && |frame| == 9 + 2 * Amount(frame) && Amount(frame) == |values|
    requires forall i | 0 <= i < |values| :: Pair(frame[7 + 2 * i], frame[8 + 2 * i]) == values[i]
    requires Overwritten(before, after, frame)
    ensures Placed(before, after, Address(frame), values)
  {
    var a := Address(frame);
    forall r | 0 <= r < 7 ensures after[r] == if a <= r < a + |values| then values[r - a] else before[r] {
      if a <= r < a + |values| {
        assert Pair(frame[7 + 2 * (r - a)], frame[8 + 2 * (r - a)]) == values[r - a];
      }
    }
  }

  // ----- Everything else -----

  /** Any other function code gets itself with the top bit set and exception 1; nothing changes. */
  lemma OtherFunctionsRefused(slave: Slave, frame: seq<byte>, resistance: Resistances)
    requires |frame| == 8 && frame[0] == 0x01 && frame[1] !in {0x03, 0x04, 0x06, 0x10}
    ensures var served := Serve(slave, frame, resistance);
            && Checked(served.reply, [0x01, if frame[1] < 0x80 then frame[1] + 0x80 else frame[1], 0x01])
            && served.slave == slave
  {
    WithCrcChecked([0x01, if frame[1] < 0x80 then frame[1] + 0x80 else frame[1], 0x01]);
  }

  /** A request for another slave is neither answered nor carried out. */
  lemma ForeignIgnored(slave: Slave, frame: seq<byte>, resistance: Resistances)
    requires Whole(frame) && frame[0] != 0x01
    ensures Serve(slave, frame, resistance) == Served(slave, None)
  {
  }

  lemma WholeRead(slave: Slave, frame: seq<byte>, resistance: Resistances)
    requires |frame| == 8 && frame[0] == 0x01 && frame[1] == 0x03 && Address(frame) == 0 && Amount(frame) == 7
    ensures Carries(Serve(slave, frame, resistance).reply, 0x03, slave.holding)
  {
    ReadHoldingServed(slave, frame, resistance);
    assert slave.holding[0..7] == slave.holding;
  }

  lemma BootHolding()
    ensures BOOT.holding == [1, 50, 50, 21000, 1000, 8, 8]
  {
  }

  /** The first read after power-up: 1, 50, 50, 21000, 1000, 8 and 8. */
  lemma PowerUpRead(frame: seq<byte>, resistance: Resistances)
    requires |frame| == 8 && frame[0] == 0x01 && frame[1] == 0x03 && Address(frame) == 0 && Amount(frame) == 7
    ensures Carries(Serve(BOOT, frame, resistance).reply, 0x03, [1, 50, 50, 21000, 1000, 8, 8])
  {
    BootHolding();
    WholeRead(BOOT, frame, resistance);
  }
}
