/**
 Feedback shift registers over any word type.  The laws below are all the burst-detection
 argument uses, so it is made once here, for every register that obeys them, and applied
 to the Modbus CRC-16 in module `Crc16`.
 */
module ShiftRegister {
  /**
   shift: one clock of the register with no input;
   xor: addition of words;
   bit: the word that carries one input bit;
   up: a packed window with one more bit put in front of it;
   fits: whether a packed window uses no more than that many bits.
   */
  datatype Register<!W(!new)> = Register(
    shift: W -> W,
    xor: (W, W) -> W,
    bit: bool -> W,
    up: (W, bool) -> W,
    fits: (W, nat) -> bool,
    zero: W,
    width: nat)
  {
    ghost predicate ShiftAdditive() {
      forall x, y :: shift(xor(x, y)) == xor(shift(x), shift(y))
    }

    ghost predicate ShiftInjective() {
      forall x, y :: shift(x) == shift(y) ==> x == y
    }

    ghost predicate XorInjective() {
      && (forall x, y, z :: xor(x, z) == xor(y, z) ==> x == y)
      && (forall x, y, z :: xor(z, x) == xor(z, y) ==> x == y)
    }

    /** Shifting is additive and loses nothing. */
    ghost predicate Linear() {
      ShiftAdditive() && ShiftInjective() && XorInjective()
    }

    ghost predicate UpFits() {
      && fits(zero, 0)
      && (forall w, b, k: nat :: k < width && fits(w, k) ==> fits(up(w, b), k + 1))
    }

    ghost predicate UpInjective() {
      forall w, v, b, d, k: nat :: k < width && fits(w, k) && fits(v, k) && up(w, b) == up(v, d) ==>
        w == v && b == d
    }

    /** A bit packed in front is consumed by one shift, which leaves the rest of the window. */
    ghost predicate UpShifts() {
      && (forall c :: xor(c, zero) == c)
      && (forall c, w, b, k: nat :: k < width && fits(w, k) ==>
            shift(xor(c, up(w, b))) == xor(shift(xor(c, bit(b))), w))
    }

    /** A window of at most `width` bits can be fed at once instead of bit by bit. */
    ghost predicate Windowed() {
      UpFits() && UpInjective() && UpShifts()
    }

    function Step(c: W, b: bool): W {
      shift(xor(c, bit(b)))
    }

    /** The register after the bits, first bit first. */
    function Feed(c: W, bits: seq<bool>): W
      decreases |bits|
    {
      if bits == [] then c else Feed(Step(c, bits[0]), bits[1..])
    }

    function Shifts(c: W, n: nat): W
      decreases n
    {
      if n == 0 then c else Shifts(shift(c), n - 1)
    }

    function Pack(bits: seq<bool>): W {
      if bits == [] then zero else up(Pack(bits[1..]), bits[0])
    }

    lemma PackEight(bits: seq<bool>)
      requires |bits| == 8
      ensures Pack(bits) ==
              up(up(up(up(up(up(up(up(zero, bits[7]), bits[6]), bits[5]), bits[4]), bits[3]), bits[2]), bits[1]), bits[0])
    {
      PackCons(bits, 7);
      PackCons(bits, 6);
      PackCons(bits, 5);
      PackCons(bits, 4);
      PackCons(bits, 3);
      PackCons(bits, 2);
      PackCons(bits, 1);
      PackCons(bits, 0);
    }

    lemma PackCons(bits: seq<bool>, i: nat)
      requires i < |bits|
      ensures Pack(bits[i..]) == up(if i + 1 == |bits| then zero else Pack(bits[i + 1..]), bits[i])
      ensures i == 0 ==> bits[i..] == bits
    {
      assert bits[i..][1..] == bits[i + 1..];
    }

    lemma {:induction false} FeedConcat(c: W, x: seq<bool>, y: seq<bool>)
      ensures Feed(c, x + y) == Feed(Feed(c, x), y)
      decreases |x|
    {
      if x == [] {
        assert x + y == y;
      } else {
        assert (x + y)[1..] == x[1..] + y;
        FeedConcat(Step(c, x[0]), x[1..], y);
      }
    }

    lemma {:induction false} FeedInjective(c: W, d: W, bits: seq<bool>)
      requires Linear()
      requires Feed(c, bits) == Feed(d, bits)
      ensures c == d
      decreases |bits|
    {
      if bits == [] {
      } else {
        FeedInjective(Step(c, bits[0]), Step(d, bits[0]), bits[1..]);
      }
    }

    lemma {:induction false} ShiftsInjective(c: W, d: W, n: nat)
      requires Linear()
      requires Shifts(c, n) == Shifts(d, n)
      ensures c == d
      decreases n
    {
      if n == 0 {
      } else {
        ShiftsInjective(shift(c), shift(d), n - 1);
      }
    }

    lemma {:induction false} ShiftsXor(c: W, d: W, n: nat)
      requires Linear()
      ensures Shifts(xor(c, d), n) == xor(Shifts(c, n), Shifts(d, n))
      decreases n
    {
      if n == 0 {
      } else {
        ShiftsXor(shift(c), shift(d), n - 1);
      }
    }

    lemma {:induction false} FeedIsPackedShift(c: W, bits: seq<bool>)
      requires Windowed() && |bits| <= width
      ensures fits(Pack(bits), |bits|)
      ensures Feed(c, bits) == Shifts(xor(c, Pack(bits)), |bits|)
      decreases |bits|
    {
      if bits == [] {
      } else {
        FeedIsPackedShift(Step(c, bits[0]), bits[1..]);
      }
    }

    lemma UpEqual(w: W, v: W, b: bool, d: bool, k: nat)
      requires Windowed() && k < width && fits(w, k) && fits(v, k)
      requires up(w, b) == up(v, d)
      ensures w == v && b == d
    {
    }

    lemma {:induction false} PackInjective(x: seq<bool>, y: seq<bool>)
      requires Windowed() && |x| == |y| <= width
      requires Pack(x) == Pack(y)
      ensures x == y
    {
      if x == [] {
      } else {
        FeedIsPackedShift(zero, x[1..]);
        FeedIsPackedShift(zero, y[1..]);
        var k := |x| - 1;
        UpEqual(Pack(x[1..]), Pack(y[1..]), x[0], y[0], k);
        PackInjective(x[1..], y[1..]);
        assert x == [x[0]] + x[1..] && y == [y[0]] + y[1..];
      }
    }

    /** No two different windows of at most `width` bits take the register to the same state. */
    lemma WindowInjective(c: W, x: seq<bool>, y: seq<bool>)
      requires Linear() && Windowed() && |x| == |y| <= width
      requires Feed(c, x) == Feed(c, y)
      ensures x == y
    {
      FeedIsPackedShift(c, x);
      FeedIsPackedShift(c, y);
      ShiftsInjective(xor(c, Pack(x)), xor(c, Pack(y)), |x|);
      PackInjective(x, y);
    }

    /** A burst of at most `width` bits anywhere in a message changes the final register. */
    lemma BurstDetected(c: W, before: seq<bool>, x: seq<bool>, y: seq<bool>, after: seq<bool>)
      requires Linear() && Windowed() && |x| == |y| <= width
      requires x != y
      ensures Feed(c, before + x + after) != Feed(c, before + y + after)
    {
      FeedConcat(c, before + x, after);
      FeedConcat(c, before, x);
      FeedConcat(c, before + y, after);
      FeedConcat(c, before, y);
      var d := Feed(c, before);
      if Feed(Feed(d, x), after) == Feed(Feed(d, y), after) {
        FeedInjective(Feed(d, x), Feed(d, y), after);
        WindowInjective(d, x, y);
      }
    }
  }
}
