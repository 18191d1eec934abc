/** The live configuration and the update that a register write triggers: a register holding 0 keeps the old setting. */
module Parameters {
  import opened Binary

  const HOLDING_COUNT := 7
  const INPUT_COUNT := 8
  const STRIP_COUNT := 8

  type HoldingRegisters = r: seq<uint16> | |r| == HOLDING_COUNT witness [0, 0, 0, 0, 0, 0, 0]
  type InputRegisters = r: seq<uint16> | |r| == INPUT_COUNT witness [0, 0, 0, 0, 0, 0, 0, 0]
  type Resistances = r: seq<int> | |r| == INPUT_COUNT witness [0, 0, 0, 0, 0, 0, 0, 0]
  type StripFlags = f: seq<bool> | |f| == STRIP_COUNT witness [false, false, false, false, false, false, false, false]

  /** The globals a register write may change, in the units the firmware keeps them in. */
  datatype Live = Live(
    waveType: nat,
    dutyCycle: nat,
    frequency: real,
    amplitude: nat,
    excitation: real,
    muxFrequency: nat,
    strips: StripFlags,
    stripCount: nat)

  const BOOT_REGISTERS: HoldingRegisters := [1, 50, 50, 21000, 1000, 8, 8]
  const BOOT_LIVE := Live(0, 50, 0.05, 21, 1.0, 8, [false, false, false, false, false, false, false, false], 0)

  function Milli(v: uint16): real {
    v as real / 1000.0
  }

  /** Modbus_UpdateParameters: the live configuration after applying the seven registers. */
  function Updated(live: Live, r: HoldingRegisters): Live {
    Live(
      if r[0] != 0 then r[0] - 1 else live.waveType,
      if r[1] != 0 then r[1] else live.dutyCycle,
      if r[2] != 0 then Milli(r[2]) else live.frequency,
      if r[3] != 0 then r[3] / 1000 else live.amplitude,
      if r[4] != 0 then Milli(r[4]) else live.excitation,
      if r[5] != 0 then r[5] else live.muxFrequency,
      if r[6] != 0 then Digits(r[6], STRIP_COUNT) else live.strips,
      if r[6] != 0 then Count(Digits(r[6], STRIP_COUNT)) else live.stripCount)
  }
}
