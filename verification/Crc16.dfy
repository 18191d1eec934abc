/**
 The CRC-16 of the Modbus RTU link.  The firmware computes it a byte at a time
 from a table of 256 words; the serial-line standard defines it a bit at a time
 (section 6.2.2 of MODBUS over Serial Line V1.02).  This module holds both forms,
 proves that they agree on every message, and proves what the check detects.
 */
module Crc16 {
  import opened Binary
  import opened ShiftRegister

  type word = bv16

  const START: word := 0xFFFF

  // ----- The bit-serial definition -----

  /** One shift of the reflected register: the bit that falls out decides whether the polynomial 0xA001 goes in. */
  function Shift(c: word): word {
    (c >> 1) ^ ((c & 1) * 0xA001)
  }

  function Xor(c: word, d: word): word { c ^ d }

  function Bit(b: bool): word { if b then 1 else 0 }

  function Up(w: word, b: bool): word { (w << 1) | Bit(b) }

  /** w < 2^k, for k up to 16. */
  function Fits(w: word, k: nat): bool {
    w <= if k == 0 then 0 else if k == 1 then 0x1 else if k == 2 then 0x3 else if k == 3 then 0x7
         else if k == 4 then 0xF else if k == 5 then 0x1F else if k == 6 then 0x3F else if k == 7 then 0x7F
         else if k == 8 then 0xFF else if k == 9 then 0x1FF else if k == 10 then 0x3FF else if k == 11 then 0x7FF
         else if k == 12 then 0xFFF else if k == 13 then 0x1FFF else if k == 14 then 0x3FFF else if k == 15 then 0x7FFF
         else 0xFFFF
  }

  const CRC: Register<word> := Register(Shift, Xor, Bit, Up, Fits, 0, 16)

  // The register laws, one bit-vector fact each.

  lemma ShiftXor(x: word, y: word)
    ensures Shift(x ^ y) == Shift(x) ^ Shift(y)
  {
  }

  lemma ShiftOfXor(x: word, y: word)
    ensures Shift(Xor(x, y)) == Xor(Shift(x), Shift(y))
  {
    ShiftXor(x, y);
  }

  lemma ShiftInjective(x: word, y: word)
    requires Shift(x) == Shift(y)
    ensures x == y
  {
  }

  lemma XorInjective(x: word, y: word, z: word)
    ensures Xor(x, z) == Xor(y, z) ==> x == y
    ensures Xor(z, x) == Xor(z, y) ==> x == y
  {
  }

  lemma UpFits(w: word, b: bool, k: nat)
    requires k < 16 && Fits(w, k)
    ensures Fits(Up(w, b), k + 1)
  {
  }

  lemma UpShift(c: word, w: word, b: bool, k: nat)
    requires k < 16 && Fits(w, k)
    ensures Shift(Xor(c, Up(w, b))) == Xor(Shift(Xor(c, Bit(b))), w)
  {
  }

  lemma UpInjective(w: word, v: word, b: bool, d: bool, k: nat)
    requires k < 16 && Fits(w, k) && Fits(v, k) && Up(w, b) == Up(v, d)
    ensures w == v && b == d
  {
  }

  lemma CrcShiftAdditive()
    ensures CRC.ShiftAdditive()
  {
    forall x: word, y: word ensures Shift(Xor(x, y)) == Xor(Shift(x), Shift(y)) {
      ShiftOfXor(x, y);
    }
  }

  lemma CrcInjective()
    ensures CRC.ShiftInjective() && CRC.XorInjective()
  {
    forall x: word, y: word | Shift(x) == Shift(y) ensures x == y {
      ShiftInjective(x, y);
    }
    forall x: word, y: word, z: word
      ensures Xor(x, z) == Xor(y, z) ==> x == y
      ensures Xor(z, x) == Xor(z, y) ==> x == y
    {
      XorInjective(x, y, z);
    }
  }

  lemma CrcUpFits()
    ensures CRC.UpFits()
  {
    forall w: word, b, k: nat | k < 16 && Fits(w, k) ensures Fits(Up(w, b), k + 1) {
      UpFits(w, b, k);
    }
  }

  lemma CrcUpShifts()
    ensures CRC.UpShifts()
  {
    forall c: word, w: word, b, k: nat | k < 16 && Fits(w, k)
      ensures Shift(Xor(c, Up(w, b))) == Xor(Shift(Xor(c, Bit(b))), w)
    {
      UpShift(c, w, b, k);
    }
    forall c: word ensures Xor(c, 0) == c {
    }
  }

  lemma CrcUpInjective()
    ensures CRC.UpInjective()
  {
    forall w: word, v: word, b, d, k: nat | k < 16 && Fits(w, k) && Fits(v, k) && Up(w, b) == Up(v, d)
      ensures w == v && b == d
    {
      UpInjective(w, v, b, d, k);
    }
  }

  /** The CRC register obeys the laws of `ShiftRegister`. */
  lemma CrcLaws()
    ensures CRC.Linear() && CRC.Windowed()
  {
    CrcShiftAdditive();
    CrcInjective();
    CrcUpFits();
    CrcUpShifts();
    CrcUpInjective();
  }

  // ----- Messages -----

  /** The bits of a byte in the order the line carries them. */
  function ByteBits(b: byte): seq<bool> {
    Digits(b, 8)
  }

  function Bits(m: seq<byte>): (bits: seq<bool>)
    ensures |bits| == 8 * |m|
  {
    if m == [] then [] else ByteBits(m[0]) + Bits(m[1..])
  }

  /** The check value of a message as the standard defines it. */
  function Crc(m: seq<byte>): word {
    CRC.Feed(START, Bits(m))
  }

  /** The two bytes of a word, in the order a frame ends with them. */
  function Low(c: word): byte { (c & 0xFF) as int }

  function High(c: word): byte { (c >> 8) as int }

  // ----- The table-driven form -----

  function Pick(k: bv8, a0: word, a1: word, a2: word, a3: word,
                a4: word, a5: word, a6: word, a7: word): word {
    if k == 0 then a0 else if k == 1 then a1 else if k == 2 then a2 else if k == 3 then a3
    else if k == 4 then a4 else if k == 5 then a5 else if k == 6 then a6 else a7
  }

  /** wCRCTable, one row of eight entries a line. */
  function Table(i: bv8): word {
    var k := i & 7;
    if i < 8 then Pick(k, 0x0000, 0xC0C1, 0xC181, 0x0140, 0xC301, 0x03C0, 0x0280, 0xC241)
    else if i < 16 then Pick(k, 0xC601, 0x06C0, 0x0780, 0xC741, 0x0500, 0xC5C1, 0xC481, 0x0440)
    else if i < 24 then Pick(k, 0xCC01, 0x0CC0, 0x0D80, 0xCD41, 0x0F00, 0xCFC1, 0xCE81, 0x0E40)
    else if i < 32 then Pick(k, 0x0A00, 0xCAC1, 0xCB81, 0x0B40, 0xC901, 0x09C0, 0x0880, 0xC841)
    else if i < 40 then Pick(k, 0xD801, 0x18C0, 0x1980, 0xD941, 0x1B00, 0xDBC1, 0xDA81, 0x1A40)
    else if i < 48 then Pick(k, 0x1E00, 0xDEC1, 0xDF81, 0x1F40, 0xDD01, 0x1DC0, 0x1C80, 0xDC41)
    else if i < 56 then Pick(k, 0x1400, 0xD4C1, 0xD581, 0x1540, 0xD701, 0x17C0, 0x1680, 0xD641)
    else if i < 64 then Pick(k, 0xD201, 0x12C0, 0x1380, 0xD341, 0x1100, 0xD1C1, 0xD081, 0x1040)
    else if i < 72 then Pick(k, 0xF001, 0x30C0, 0x3180, 0xF141, 0x3300, 0xF3C1, 0xF281, 0x3240)
    else if i < 80 then Pick(k, 0x3600, 0xF6C1, 0xF781, 0x3740, 0xF501, 0x35C0, 0x3480, 0xF441)
    else if i < 88 then Pick(k, 0x3C00, 0xFCC1, 0xFD81, 0x3D40, 0xFF01, 0x3FC0, 0x3E80, 0xFE41)
    else if i < 96 then Pick(k, 0xFA01, 0x3AC0, 0x3B80, 0xFB41, 0x3900, 0xF9C1, 0xF881, 0x3840)
    else if i < 104 then Pick(k, 0x2800, 0xE8C1, 0xE981, 0x2940, 0xEB01, 0x2BC0, 0x2A80, 0xEA41)
    else if i < 112 then Pick(k, 0xEE01, 0x2EC0, 0x2F80, 0xEF41, 0x2D00, 0xEDC1, 0xEC81, 0x2C40)
    else if i < 120 then Pick(k, 0xE401, 0x24C0, 0x2580, 0xE541, 0x2700, 0xE7C1, 0xE681, 0x2640)
    else if i < 128 then Pick(k, 0x2200, 0xE2C1, 0xE381, 0x2340, 0xE101, 0x21C0, 0x2080, 0xE041)
    else if i < 136 then Pick(k, 0xA001, 0x60C0, 0x6180, 0xA141, 0x6300, 0xA3C1, 0xA281, 0x6240)
    else if i < 144 then Pick(k, 0x6600, 0xA6C1, 0xA781, 0x6740, 0xA501, 0x65C0, 0x6480, 0xA441)
    else if i < 152 then Pick(k, 0x6C00, 0xACC1, 0xAD81, 0x6D40, 0xAF01, 0x6FC0, 0x6E80, 0xAE41)
    else if i < 160 then Pick(k, 0xAA01, 0x6AC0, 0x6B80, 0xAB41, 0x6900, 0xA9C1, 0xA881, 0x6840)
    else if i < 168 then Pick(k, 0x7800, 0xB8C1, 0xB981, 0x7940, 0xBB01, 0x7BC0, 0x7A80, 0xBA41)
    else if i < 176 then Pick(k, 0xBE01, 0x7EC0, 0x7F80, 0xBF41, 0x7D00, 0xBDC1, 0xBC81, 0x7C40)
    else if i < 184 then Pick(k, 0xB401, 0x74C0, 0x7580, 0xB541, 0x7700, 0xB7C1, 0xB681, 0x7640)
    else if i < 192 then Pick(k, 0x7200, 0xB2C1, 0xB381, 0x7340, 0xB101, 0x71C0, 0x7080, 0xB041)
    else if i < 200 then Pick(k, 0x5000, 0x90C1, 0x9181, 0x5140, 0x9301, 0x53C0, 0x5280, 0x9241)
    else if i < 208 then Pick(k, 0x9601, 0x56C0, 0x5780, 0x9741, 0x5500, 0x95C1, 0x9481, 0x5440)
    else if i < 216 then Pick(k, 0x9C01, 0x5CC0, 0x5D80, 0x9D41, 0x5F00, 0x9FC1, 0x9E81, 0x5E40)
    else if i < 224 then Pick(k, 0x5A00, 0x9AC1, 0x9B81, 0x5B40, 0x9901, 0x59C0, 0x5880, 0x9841)
    else if i < 232 then Pick(k, 0x8801, 0x48C0, 0x4980, 0x8941, 0x4B00, 0x8BC1, 0x8A81, 0x4A40)
    else if i < 240 then Pick(k, 0x4E00, 0x8EC1, 0x8F81, 0x4F40, 0x8D01, 0x4DC0, 0x4C80, 0x8C41)
    else if i < 248 then Pick(k, 0x4400, 0x84C1, 0x8581, 0x4540, 0x8701, 0x47C0, 0x4680, 0x8641)
    else Pick(k, 0x8201, 0x42C0, 0x4380, 0x8341, 0x4100, 0x81C1, 0x8081, 0x4040)
  }

  /** One round of the firmware's loop. */
  function ByteStep(c: word, b: byte): word {
    Xor(c >> 8, Table((b as bv8) ^ ((c & 0xFF) as bv8)))
  }

  function Shift8(c: word): word {
    Shift(Shift(Shift(Shift(Shift(Shift(Shift(Shift(c))))))))
  }

  lemma EightShifts(c: word)
    ensures CRC.Shifts(c, 8) == Shift8(c)
  {
    var c1 := Shift(c);
    var c2 := Shift(c1);
    var c3 := Shift(c2);
    var c4 := Shift(c3);
    assert CRC.Shifts(c, 8) == CRC.Shifts(c1, 7) == CRC.Shifts(c2, 6) == CRC.Shifts(c3, 5) == CRC.Shifts(c4, 4);
  }

  lemma TableEntry(o: bv8)
    ensures Table(o) == Shift8(o as word)
  {
  }

  lemma ClearLowByteShifts(c: word, n: nat)
    requires n == 8 && c & 0xFF == 0
    ensures CRC.Shifts(c, n) == c >> 8
  {
    EightShifts(c);
    ClearLowByteShift8(c);
  }

  lemma ClearLowByteShift8(c: word)
    requires c & 0xFF == 0
    ensures Shift8(c) == c >> 8
  {
  }

  lemma SplitLowByte(c: word, o: bv8)
    ensures Xor(c, o as word) == Xor(c & 0xFF00, (o ^ ((c & 0xFF) as bv8)) as word)
    ensures (c & 0xFF00) & 0xFF == 0
    ensures (c & 0xFF00) >> 8 == c >> 8
  {
  }

  /** The same eight bits, read off the byte as the table form sees it. */
  function OctetBits(o: bv8): seq<bool> {
    [o & 1 != 0, o & 2 != 0, o & 4 != 0, o & 8 != 0, o & 16 != 0, o & 32 != 0, o & 64 != 0, o & 128 != 0]
  }

  lemma NestedHalves(x: nat)
    ensures x / 2 / 2 == x / 4 && x / 4 / 2 == x / 8 && x / 8 / 2 == x / 16
    ensures x / 16 / 2 == x / 32 && x / 32 / 2 == x / 64 && x / 64 / 2 == x / 128
  {
  }

  function WeightBits(x: nat): seq<bool> {
    [x % 2 == 1, x / 2 % 2 == 1, x / 4 % 2 == 1, x / 8 % 2 == 1,
     x / 16 % 2 == 1, x / 32 % 2 == 1, x / 64 % 2 == 1, x / 128 % 2 == 1]
  }

  lemma ByteBitsAreWeights(b: byte)
    ensures ByteBits(b) == WeightBits(b)
  {
    NestedHalves(b);
    assert Digits(b / 128, 1) == WeightBits(b)[7..];
    assert Digits(b / 64, 2) == WeightBits(b)[6..];
    assert Digits(b / 32, 3) == WeightBits(b)[5..];
    assert Digits(b / 16, 4) == WeightBits(b)[4..];
    assert Digits(b / 8, 5) == WeightBits(b)[3..];
    assert Digits(b / 4, 6) == WeightBits(b)[2..];
    assert Digits(b / 2, 7) == WeightBits(b)[1..];
  }

  lemma OctetBitsAreWeights(b: byte)
    ensures OctetBits(b as bv8) == WeightBits(b)
  {
  }

  lemma UpOctet(o: bv8)
    ensures Up(Up(Up(Up(Up(Up(Up(Up(0, o & 128 != 0), o & 64 != 0), o & 32 != 0), o & 16 != 0),
                  o & 8 != 0), o & 4 != 0), o & 2 != 0), o & 1 != 0) == o as word
  {
  }

  lemma PackOctet(o: bv8)
    ensures CRC.Pack(OctetBits(o)) == o as word
  {
    CRC.PackEight(OctetBits(o));
    UpOctet(o);
  }

  /** Feeding a byte shifts the high byte of the register down and adds what the low byte leaves. */
  lemma EightShiftsSplit(c: word, o: bv8, n: nat, t: word)
    requires n == 8
    requires CRC.Shifts((o ^ ((c & 0xFF) as bv8)) as word, n) == t
    ensures CRC.Shifts(Xor(c, o as word), n) == Xor(c >> 8, t)
  {
    SplitLowByte(c, o);
    CrcLaws();
    CRC.ShiftsXor(c & 0xFF00, (o ^ ((c & 0xFF) as bv8)) as word, n);
    ClearLowByteShifts(c & 0xFF00, n);
  }

  lemma TableShifts(o: bv8, n: nat)
    requires n == 8
    ensures CRC.Shifts(o as word, n) == Table(o)
  {
    EightShifts(o as word);
    TableEntry(o);
  }

  lemma OctetStepFeedsBits(c: word, o: bv8, n: nat, t: word)
    requires n == 8
    requires CRC.Shifts((o ^ ((c & 0xFF) as bv8)) as word, n) == t
    ensures CRC.Feed(c, OctetBits(o)) == Xor(c >> 8, t)
  {
    CrcLaws();
    CRC.FeedIsPackedShift(c, OctetBits(o));
    PackOctet(o);
    EightShiftsSplit(c, o, n, t);
  }

  lemma OctetStepUsesTable(c: word, o: bv8, n: nat)
    requires n == 8
    ensures CRC.Feed(c, OctetBits(o)) == Xor(c >> 8, Table(o ^ ((c & 0xFF) as bv8)))
  {
    TableShifts(o ^ ((c & 0xFF) as bv8), n);
    OctetStepFeedsBits(c, o, n, Table(o ^ ((c & 0xFF) as bv8)));
  }

  /** One table step is eight bit-serial steps. */
  lemma ByteStepFeedsBits(c: word, b: byte)
    ensures ByteStep(c, b) == CRC.Feed(c, ByteBits(b))
  {
    OctetStepUsesTable(c, b as bv8, 8);
    ByteBitsAreWeights(b);
    OctetBitsAreWeights(b);
  }

  /** Modbus_CRC16: the table-driven loop computes the standard's check value of every message. */
  method ModbusCrc16(data: array<byte>, length: nat) returns (crc: word)
    requires length <= data.Length
    ensures crc == Crc(data[..length])
  {
    crc := START;
    var i := 0;
    while i < length
      invariant i <= length
      invariant crc == Crc(data[..i])
    {
      CrcAppend(data[..i], data[i]);
      assert data[..i + 1] == data[..i] + [data[i]];
      crc := ByteStep(crc, data[i]);
      i := i + 1;
    }
  }

  lemma {:induction false} BitsConcat(m: seq<byte>, n: seq<byte>)
    ensures Bits(m + n) == Bits(m) + Bits(n)
  {
    if m == [] {
      assert m + n == n;
    } else {
      assert (m + n)[1..] == m[1..] + n;
      BitsConcat(m[1..], n);
    }
  }

  lemma CrcAppend(m: seq<byte>, b: byte)
    ensures Crc(m + [b]) == ByteStep(Crc(m), b)
  {
    BitsConcat(m, [b]);
    assert Bits([b]) == ByteBits(b) + Bits([]) == ByteBits(b);
    CRC.FeedConcat(START, Bits(m), ByteBits(b));
    ByteStepFeedsBits(Crc(m), b);
  }

  // ----- The preset -----

  function Flip(bits: seq<bool>): (r: seq<bool>)
    ensures |r| == |bits|
  {
    seq(|bits|, i requires 0 <= i < |bits| => !bits[i])
  }

  /** The k low bits set. */
  function Ones(k: nat): word {
    if k == 0 then 0 else Up(Ones(k - 1), true)
  }

  lemma ShiftedOnes(w: word, v: word)
    ensures ((w << 1) | 1) ^ ((v << 1) | 1) == ((w ^ v) << 1) | 0
    ensures ((w << 1) | 0) ^ ((v << 1) | 1) == ((w ^ v) << 1) | 1
  {
  }

  lemma UpXor(w: word, v: word, b: bool)
    ensures Xor(Up(w, b), Up(v, true)) == Up(Xor(w, v), !b)
  {
    ShiftedOnes(w, v);
    if b {
      assert Bit(b) == 1 && Bit(!b) == 0;
    } else {
      assert Bit(b) == 0 && Bit(!b) == 1;
    }
  }

  lemma {:induction false} PackFlip(bits: seq<bool>)
    ensures CRC.Pack(Flip(bits)) == Xor(CRC.Pack(bits), Ones(|bits|))
  {
    if bits == [] {
    } else {
      PackFlip(bits[1..]);
      assert Flip(bits)[1..] == Flip(bits[1..]);
      UpXor(CRC.Pack(bits[1..]), Ones(|bits| - 1), bits[0]);
    }
  }

  lemma AllOnes(k: nat)
    requires k == 16
    ensures Ones(k) == 0xFFFF
  {
    assert Ones(4) == 0xF;
    assert Ones(8) == 0xFF;
    assert Ones(12) == 0xFFF;
  }

  lemma FlipAll(p: word)
    ensures Xor(0, Xor(p, 0xFFFF)) == Xor(0xFFFF, p)
  {
  }

  /** Starting from all ones is starting from zero with the first sixteen bits complemented. */
  lemma OnesComplement(bits: seq<bool>, k: nat)
    requires k == 16 && |bits| == k
    ensures CRC.Feed(0xFFFF, bits) == CRC.Feed(0, Flip(bits))
  {
    CrcLaws();
    CRC.FeedIsPackedShift(0xFFFF, bits);
    CRC.FeedIsPackedShift(0, Flip(bits));
    PackFlip(bits);
    AllOnes(k);
    FlipAll(CRC.Pack(bits));
  }

  /**
   The check value is what a register that starts from zero makes of the message with its first
   sixteen bits complemented; only the preset 0xFFFF does that, and for one message as for all.
   */
  lemma PresetExactly(m: seq<byte>, preset: word)
    requires |m| >= 2
    ensures Crc(m) == CRC.Feed(0, Flip(Bits(m)[..16]) + Bits(m)[16..])
    ensures CRC.Feed(preset, Bits(m)) == CRC.Feed(0, Flip(Bits(m)[..16]) + Bits(m)[16..]) <==> preset == 0xFFFF
  {
    var head, tail := Bits(m)[..16], Bits(m)[16..];
    assert Bits(m) == head + tail;
    OnesComplement(head, 16);
    CRC.FeedConcat(0xFFFF, head, tail);
    CRC.FeedConcat(0, Flip(head), tail);
    if CRC.Feed(preset, Bits(m)) == CRC.Feed(0xFFFF, Bits(m)) {
      CrcLaws();
      CRC.FeedInjective(preset, 0xFFFF, Bits(m));
    }
  }

  lemma FirstExampleStep()
    ensures ByteStep(0xFFFF, 0x02) == 0x813E
  {
  }

  lemma SecondExampleStep()
    ensures ByteStep(0x813E, 0x07) == 0x1241
    ensures Low(0x1241) == 0x41 && High(0x1241) == 0x12
  {
  }

  /** The example of the standard: 02 07 has the check value 0x1241, sent as 41 12. */
  lemma StandardExample()
    ensures Crc([0x02, 0x07]) == 0x1241
    ensures [Low(Crc([0x02, 0x07])), High(Crc([0x02, 0x07]))] == [0x41, 0x12]
  {
    CrcAppend([], 0x02);
    CrcAppend([0x02], 0x07);
    assert [] + [0x02] == [0x02] && [0x02] + [0x07] == [0x02, 0x07];
    assert Crc([]) == 0xFFFF;
    FirstExampleStep();
    SecondExampleStep();
  }

  // ----- What the check detects -----

  /** Any burst of at most 16 bits, wherever it starts, changes the check value. */
  lemma CrcDetectsBursts(m: seq<byte>, n: seq<byte>, at: nat, width: nat)
    requires |m| == |n| && m != n
    requires width <= 16 && at + width <= 8 * |m|
    requires Bits(m)[..at] == Bits(n)[..at]
    requires Bits(m)[at + width..] == Bits(n)[at + width..]
    ensures Crc(m) != Crc(n)
  {
    var a, b := Bits(m), Bits(n);
    if a == b {
      BitsInjective(m, n);
    }
    assert a == a[..at] + a[at..at + width] + a[at + width..];
    assert b == b[..at] + b[at..at + width] + b[at + width..];
    CrcLaws();
    CRC.BurstDetected(START, a[..at], a[at..at + width], b[at..at + width], a[at + width..]);
  }

  /** Two messages that differ only inside one byte, or only inside two adjacent bytes, never share a check value. */
  lemma CrcDetectsTwoBytes(before: seq<byte>, x: seq<byte>, y: seq<byte>, after: seq<byte>)
    requires |x| == |y| <= 2 && x != y
    ensures Crc(before + x + after) != Crc(before + y + after)
  {
    BitsConcat(before + x, after);
    BitsConcat(before, x);
    BitsConcat(before + y, after);
    BitsConcat(before, y);
    if Bits(x) == Bits(y) {
      BitsInjective(x, y);
    }
    CrcLaws();
    CRC.BurstDetected(START, Bits(before), Bits(x), Bits(y), Bits(after));
  }

  lemma {:induction false} BitsInjective(m: seq<byte>, n: seq<byte>)
    requires |m| == |n| && Bits(m) == Bits(n)
    ensures m == n
  {
    if m == [] {
    } else {
      assert ByteBits(m[0]) == Bits(m)[..8] && ByteBits(n[0]) == Bits(n)[..8];
      assert Bits(m[1..]) == Bits(m)[8..] && Bits(n[1..]) == Bits(n)[8..];
      assert Pow2(8) == 256;
      DigitsInjective(m[0], n[0], 8);
      BitsInjective(m[1..], n[1..]);
      assert m == [m[0]] + m[1..] && n == [n[0]] + n[1..];
    }
  }

  // ----- The residue -----

  lemma OctetsOfWord(c: word)
    ensures Low(c) as bv8 == (c & 0xFF) as bv8
    ensures High(c) as bv8 == ((c >> 8) & 0xFF) as bv8
  {
  }

  lemma FeedingLow(c: word, b: byte)
    requires b as bv8 == (c & 0xFF) as bv8
    ensures ByteStep(c, b) == c >> 8
  {
  }

  lemma TwoSteps(c: word)
    ensures ByteStep(ByteStep(c, Low(c)), High(c)) == 0
  {
    OctetsOfWord(c);
    FeedingLow(c, Low(c));
    FeedingLow(c >> 8, High(c));
    assert (c >> 8) >> 8 == 0;
  }

  /** A message followed by its own check value, low byte first, has check value 0. */
  lemma CrcResidue(m: seq<byte>)
    ensures Crc(m + [Low(Crc(m)), High(Crc(m))]) == 0
  {
    var c := Crc(m);
    CrcAppend(m, Low(c));
    CrcAppend(m + [Low(c)], High(c));
    assert m + [Low(c), High(c)] == m + [Low(c)] + [High(c)];
    TwoSteps(c);
  }

  /** No other two bytes in that place give 0: the residue is 0 exactly for a correct check value. */
  lemma CrcResidueExact(m: seq<byte>, lo: byte, hi: byte)
    ensures Crc(m + [lo, hi]) == 0 <==> lo == Low(Crc(m)) && hi == High(Crc(m))
  {
    CrcResidue(m);
    var good := [Low(Crc(m)), High(Crc(m))];
    if [lo, hi] != good {
      CrcDetectsTwoBytes(m, [lo, hi], good, []);
      assert m + [lo, hi] + [] == m + [lo, hi] && m + good + [] == m + good;
    }
  }
}
