/** What the holding registers ask of the hot plate: the length of its wave, and whether the wave can be made and played. */
module HotPlateSessions {
  import opened Binary
  import opened HotPlate
  import opened Modbus
  import opened Parameters
  import opened Sessions
  import opened WaveBuffer

  // ----- Told from the registers in effect -----

  /** A wave form from 1 to 3 and a frequency other than 1 mHz, where set. */
  predicate Settable(e: HoldingRegisters) {
    e[0] <= 3 && e[2] != 1
  }

  function SizeFor(e: HoldingRegisters): (size: nat)
    ensures size <= MAX_ARRAY_SIZE
    ensures size == 0 <==> e[2] > 25000
  {
    if e[2] == 0 then 500
    else if e[2] > 25000 then 0
    else
      Division(25000, e[2]);
      if 25000 / e[2] > MAX_ARRAY_SIZE then MAX_ARRAY_SIZE else 25000 / e[2]
  }

  function DutyFor(e: HoldingRegisters): nat {
    if e[1] == 0 then 50 else e[1]
  }

  /** A triangle that has samples rises first, and does not fall for more than one sample longer than it rises. */
  predicate Convertible(e: HoldingRegisters) {
    e[0] == 3 && DutyFor(e) <= 100 && SizeFor(e) > 0 ==>
      var on := OnSize(SizeFor(e), DutyFor(e));
      0 < on && SizeFor(e) <= 2 * on + 1
  }

  /** The setup that the registers in effect bring about. */
  function SetupOf(e: HoldingRegisters): Action {
    Setup(SizeFor(e), Settable(e), Convertible(e))
  }

  // ----- Told from the live configuration -----

  ghost predicate Defined(live: Live, size: nat) {
    live.waveType == 2 ==> TriangleSound(size, live.dutyCycle)
  }

  /** What initialize_dac_hot_plate does; the frequency is never zero. */
  ghost function SetupFor(live: Live): Action {
    var size := if live.frequency > 0.0 then SampleCount(live.frequency) else 0;
    Setup(size, Accepted(live.waveType, live.frequency), Defined(live, size))
  }

  /** Every sample of every wave stays within 14 bits. */
  ghost predicate InRange(live: Live) {
    forall v: nat | v <= 16383 :: Scaled(v, live.amplitude) <= 16383
  }

  lemma ReadyExactly(live: Live, e: HoldingRegisters)
    requires Reflects(live, e)
    ensures Accepted(live.waveType, live.frequency) <==> Settable(e)
  {
    if e[2] >= 2 {
      assert Milli(e[2]) >= 0.002;
    }
  }

  lemma SizeReflects(live: Live, e: HoldingRegisters)
    requires Reflects(live, e)
    ensures live.frequency > 0.0 && SampleCount(live.frequency) == SizeFor(e)
  {
    if e[2] == 0 {
      assert 25.0 / 0.05 == 500.0;
    } else {
      SampleCountOf(e[2]);
    }
  }

  lemma DefinedReflects(live: Live, e: HoldingRegisters)
    requires Reflects(live, e)
    ensures Defined(live, SizeFor(e)) <==> Convertible(e)
  {
    var size, duty := SizeFor(e), DutyFor(e);
    if duty <= 100 && 0 < OnSize(size, duty) {
      ProductOrder(duty, 100, size);
      TriangleDefinedExactly(OnSize(size, duty), size);
    }
  }

  lemma SetupReflects(live: Live, e: HoldingRegisters)
    requires Reflects(live, e)
    ensures SetupFor(live) == SetupOf(e)
  {
    ReadyExactly(live, e);
    SizeReflects(live, e);
    DefinedReflects(live, e);
  }

  /**
   After any session: whether the hot-plate setup succeeds, how many samples it asks for,
   whether all its conversions are defined and whether every sample fits in 14 bits, each
   exactly told from the last nonzero values of registers 0 to 3 at a granted write.
   */
  lemma SessionSetup(requests: seq<Request>)
    ensures var live, e := Sessions.Run(BOOT, requests).live, EffectiveRegisters(requests);
            && SetupFor(live) == SetupOf(e)
            && (InRange(live) <==> e[3] < 28000)
  {
    var live := Sessions.Run(BOOT, requests).live;
    LiveConfiguration(requests);
    SetupReflects(live, EffectiveRegisters(requests));
    ScaledInRange(live.amplitude);
  }

  /** A duty cycle of at least one half and a frequency of at most 12.5 Hz are always enough. */
  lemma HalfDutyConvertible(e: HoldingRegisters)
    requires (e[1] == 0 || 50 <= e[1]) && e[2] <= 12500
    ensures Convertible(e)
  {
    if DutyFor(e) <= 100 {
      if e[2] > 0 {
        AtLeastTwo(e[2]);
      }
      HalfDutySuffices(SizeFor(e), DutyFor(e));
    }
  }

  lemma AtLeastTwo(r: nat)
    requires 0 < r <= 12500
    ensures 25000 / r >= 2
  {
    Division(25000, r);
    if 25000 / r <= 1 {
      ProductOrder(25000 / r, 1, r);
      assert false;
    }
  }
}
