/**
 The Modbus slave as a function from requests to replies.  It answers what the firmware
 answers, which is not all the standard asks: the check value of a request is ignored and
 a read of no registers succeeds.
 */
module Modbus {
  import opened Binary
  import opened Crc16
  import opened Parameters
  import opened Wrappers

  const ADDRESS: byte := 0x01
  const READ_HOLDING: byte := 0x03
  const READ_INPUT: byte := 0x04
  const WRITE_SINGLE: byte := 0x06
  const WRITE_MULTIPLE: byte := 0x10
  const ILLEGAL_FUNCTION: byte := 0x01
  const ILLEGAL_DATA_ADDRESS: byte := 0x02

  datatype Slave = Slave(holding: HoldingRegisters, input: InputRegisters, live: Live, changed: bool)

  const BOOT := Slave(BOOT_REGISTERS, [0, 0, 0, 0, 0, 0, 0, 0], BOOT_LIVE, false)

  datatype Served = Served(slave: Slave, reply: Option<seq<byte>>)

  // ----- Frames -----

  function Word(hi: byte, lo: byte): uint16 {
    256 * hi + lo
  }

  function FrameLength(frame: seq<byte>): nat
    requires |frame| >= 8
  {
    if frame[1] == WRITE_MULTIPLE then 9 + frame[6] as nat else 8
  }

  /** A frame as the assembler delivers it. */
  predicate Complete(frame: seq<byte>) {
    |frame| >= 8 && |frame| == FrameLength(frame)
  }

  type Frame = f: seq<byte> | Complete(f) witness [0, 0, 0, 0, 0, 0, 0, 0]

  function Start(frame: seq<byte>): uint16
    requires |frame| >= 8
  {
    Word(frame[2], frame[3])
  }

  function Quantity(frame: seq<byte>): uint16
    requires |frame| >= 8
  {
    Word(frame[4], frame[5])
  }

  function BigEndian(values: seq<uint16>): (bytes: seq<byte>)
    ensures |bytes| == 2 * |values|
  {
    if values == [] then [] else
      var v := values[|values| - 1];
      BigEndian(values[..|values| - 1]) + [v / 256, v % 256]
  }

  function WithCrc(m: seq<byte>): seq<byte> {
    m + [Low(Crc(m)), High(Crc(m))]
  }

  /** Setting the top bit of a function code. */
  function ErrorCode(code: byte): byte {
    if code < 128 then code + 128 else code
  }

  function Exception(frame: seq<byte>, code: byte): seq<byte>
    requires |frame| >= 8
  {
    WithCrc([frame[0], ErrorCode(frame[1]), code])
  }

  // ----- Requests -----

  function ReadReply(frame: seq<byte>, registers: seq<uint16>): seq<byte>
    requires |frame| >= 8 && |registers| <= INPUT_COUNT
  {
    if Start(frame) + Quantity(frame) <= |registers|
    then WithCrc([frame[0], frame[1], 2 * Quantity(frame)]
                 + BigEndian(registers[Start(frame)..Start(frame) + Quantity(frame)]))
    else Exception(frame, ILLEGAL_DATA_ADDRESS)
  }

  function Truncated(resistance: Resistances): InputRegisters {
    seq(INPUT_COUNT, i requires 0 <= i < INPUT_COUNT => resistance[i] % 65536)
  }

  function Stored(slave: Slave, registers: HoldingRegisters): Slave {
    slave.(holding := registers, live := Updated(slave.live, registers), changed := true)
  }

  /** The values a write of several registers carries. */
  function Payload(frame: seq<byte>, count: nat): (values: seq<uint16>)
    requires |frame| >= 7 + 2 * count
    ensures |values| == count
  {
    seq(count, i requires 0 <= i < count => Word(frame[7 + 2 * i], frame[8 + 2 * i]))
  }

  /** Overwrites the registers from `start` on. */
  function Overwrite(registers: seq<uint16>, start: nat, values: seq<uint16>): (r: seq<uint16>)
    requires start + |values| <= |registers|
    ensures |r| == |registers|
  {
    registers[..start] + values + registers[start + |values|..]
  }

  lemma OverwriteNext(registers: seq<uint16>, start: nat, values: seq<uint16>, v: uint16)
    requires start + |values| < |registers|
    ensures Overwrite(registers, start, values + [v])
         == Overwrite(registers, start, values)[start + |values| := v]
  {
  }

  /** Whether the byte count of a multiple write agrees with its register count and the register count is legal. */
  predicate WellCounted(frame: seq<byte>)
    requires |frame| >= 8
  {
    1 <= Quantity(frame) <= 123 && frame[6] == 2 * Quantity(frame)
  }

  /** Modbus_HandleRequest.  The precondition is what the frame assembler guarantees. */
  function Serve(slave: Slave, frame: seq<byte>, resistance: Resistances): Served
    requires |frame| >= 9 && frame[1] == WRITE_MULTIPLE ==> |frame| >= FrameLength(frame)
  {
    if |frame| < 8 || frame[0] != ADDRESS then
      Served(slave, None)
    else if frame[1] == READ_HOLDING then
      Served(slave, Some(ReadReply(frame, slave.holding)))
    else if frame[1] == READ_INPUT then
      var slave' := if Start(frame) + Quantity(frame) <= INPUT_COUNT
                    then slave.(input := Truncated(resistance)) else slave;
      Served(slave', Some(ReadReply(frame, slave'.input)))
    else if frame[1] == WRITE_SINGLE then
      if Start(frame) < HOLDING_COUNT
      then Served(Stored(slave, slave.holding[Start(frame) := Quantity(frame)]), Some(WithCrc(frame[..6])))
      else Served(slave, Some(Exception(frame, ILLEGAL_DATA_ADDRESS)))
    else if frame[1] == WRITE_MULTIPLE then
      if |frame| < 9 then Served(slave, None)
      else if WellCounted(frame) && Start(frame) + Quantity(frame) <= HOLDING_COUNT
      then Served(Stored(slave, Overwrite(slave.holding, Start(frame), Payload(frame, Quantity(frame)))),
                  Some(WithCrc(frame[..6])))
      else Served(slave, Some(Exception(frame, ILLEGAL_DATA_ADDRESS)))
    else
      Served(slave, Some(Exception(frame, ILLEGAL_FUNCTION)))
  }
}
