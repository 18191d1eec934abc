/**
 When one write of several registers does what writing them one after the other does.
 The registers always end up the same; the live configuration may not, because each single
 write applies all seven registers again, and a register holding 0 keeps the setting that an
 earlier application gave.
 */
module WriteOrder {
  import opened Binary
  import opened Parameters
  import opened Modbus
  import opened Replies
  import opened Sessions

  /** A single-register write of v to register r; the check bytes play no part. */
  function SingleWrite(r: uint16, v: uint16, resistance: Resistances): Request {
    Request([ADDRESS, WRITE_SINGLE, r / 256, r % 256, v / 256, v % 256, 0, 0], resistance)
  }

  /** Single writes of the values to the registers from `start` on, in ascending order. */
  function Singles(start: nat, values: seq<uint16>, resistance: Resistances): (requests: seq<Request>)
    requires start + |values| <= HOLDING_COUNT
    ensures |requests| == |values|
  {
    if values == [] then [] else
      var k := |values| - 1;
      Singles(start, values[..k], resistance) + [SingleWrite(start + k, values[k], resistance)]
  }

  lemma SingleWriteServed(slave: Slave, r: uint16, v: uint16, resistance: Resistances)
    requires r < HOLDING_COUNT
    ensures var request := SingleWrite(r, v, resistance);
            Serve(slave, request.frame, resistance).slave == Stored(slave, slave.holding[r := v])
  {
    var frame := SingleWrite(r, v, resistance).frame;
    assert Start(frame) == r && Quantity(frame) == v;
  }

  /** The old values of registers a < r < b, 0 elsewhere. */
  function Between(h: HoldingRegisters, a: nat, b: nat): HoldingRegisters {
    seq(HOLDING_COUNT, r requires 0 <= r < HOLDING_COUNT => if a < r < b then h[r] else 0)
  }

  /** The registers that single writes have in force when they come to clear them: old values, only where v is 0. */
  function Cleared(h: HoldingRegisters, start: nat, values: seq<uint16>): HoldingRegisters {
    seq(HOLDING_COUNT, r requires 0 <= r < HOLDING_COUNT =>
      if start < r < start + |values| && values[r - start] == 0 then h[r] else 0)
  }


  /** What single writes of `values` from register `start` on make of a slave. */
  ghost predicate AfterSingles(slave: Slave, after: Slave, start: nat, values: seq<uint16>) {
    && start + |values| <= HOLDING_COUNT
    && after.holding == Overwrite(slave.holding, start, values)
    && after.live == Updated(Updated(slave.live, Between(slave.holding, start, start + |values|)), after.holding)
    && after.changed && after.input == slave.input
  }

  /** The first k values stored one after the other. */
  function StoredInTurn(slave: Slave, start: nat, values: seq<uint16>): Slave
    requires start + |values| <= HOLDING_COUNT
  {
    if values == [] then slave else
      var k := |values| - 1;
      var before := StoredInTurn(slave, start, values[..k]);
      Stored(before, before.holding[start + k := values[k]])
  }

  lemma {:induction false} SinglesStore(slave: Slave, start: nat, values: seq<uint16>, resistance: Resistances)
    requires start + |values| <= HOLDING_COUNT
    ensures Run(slave, Singles(start, values, resistance)) == StoredInTurn(slave, start, values)
  {
    if values == [] {
    } else {
      var k := |values| - 1;
      SinglesStore(slave, start, values[..k], resistance);
      SingleWriteLast(slave, Singles(start, values[..k], resistance), start + k, values[k], resistance);
    }
  }

  lemma SingleWriteLast(slave: Slave, requests: seq<Request>, r: uint16, v: uint16, resistance: Resistances)
    requires r < HOLDING_COUNT
    ensures var before := Run(slave, requests);
            Run(slave, requests + [SingleWrite(r, v, resistance)]) == Stored(before, before.holding[r := v])
  {
    assert (requests + [SingleWrite(r, v, resistance)])[..|requests|] == requests;
    SingleWriteServed(Run(slave, requests), r, v, resistance);
  }

  lemma {:induction false} StoredInTurnIs(slave: Slave, start: nat, values: seq<uint16>)
    requires start + |values| <= HOLDING_COUNT && values != []
    ensures AfterSingles(slave, StoredInTurn(slave, start, values), start, values)
  {
    var k := |values| - 1;
    assert values == values[..k] + [values[k]];
    if k == 0 {
      FirstSingle(slave, start, values[0]);
      assert values[..0] == [];
    } else {
      StoredInTurnIs(slave, start, values[..k]);
      NextSingle(slave, StoredInTurn(slave, start, values[..k]), start, values[..k], values[k]);
    }
  }

  lemma FirstSingle(slave: Slave, start: nat, v: uint16)
    requires start < HOLDING_COUNT
    ensures AfterSingles(slave, Stored(slave, slave.holding[start := v]), start, [] + [v])
  {
    NothingBetween(slave.live, slave.holding, start);
    assert slave.holding[start := v] == Overwrite(slave.holding, start, [] + [v]);
  }

  lemma NextSingle(slave: Slave, before: Slave, start: nat, values: seq<uint16>, v: uint16)
    requires |values| > 0 && start + |values| < HOLDING_COUNT
    requires AfterSingles(slave, before, start, values)
    ensures AfterSingles(slave, Stored(before, before.holding[start + |values| := v]), start, values + [v])
  {
    var r := start + |values|;
    assert before.holding[r := v] == Overwrite(slave.holding, start, values + [v]);
    OneMore(slave.live, slave.holding, before.holding, start, r, v);
  }

  lemma NothingBetween(live: Live, h: HoldingRegisters, start: nat)
    ensures Updated(live, Between(h, start, start + 1)) == live
  {
  }

  /** Register r goes from its old value to v, all others stay. */
  lemma OneMore(live: Live, h: HoldingRegisters, g: HoldingRegisters, start: nat, r: nat, v: uint16)
    requires start < r < HOLDING_COUNT && g[r] == h[r]
    ensures Updated(Updated(Updated(live, Between(h, start, r)), g), g[r := v])
         == Updated(Updated(live, Between(h, start, r + 1)), g[r := v])
  {
  }

  lemma ClearedByParts(live: Live, m: HoldingRegisters, g: HoldingRegisters, c: HoldingRegisters)
    requires forall r | 0 <= r < HOLDING_COUNT :: c[r] == if g[r] == 0 then m[r] else 0
    ensures Updated(Updated(live, m), g) == Updated(live, g) <==> Updated(live, c) == live
  {
  }

  lemma ClearedDecides(live: Live, h: HoldingRegisters, start: nat, values: seq<uint16>)
    requires start + |values| <= HOLDING_COUNT
    ensures var g := Overwrite(h, start, values);
            Updated(Updated(live, Between(h, start, start + |values|)), g) == Updated(live, g)
            <==> Updated(live, Cleared(h, start, values)) == live
  {
    ClearedByParts(live, Between(h, start, start + |values|), Overwrite(h, start, values), Cleared(h, start, values));
  }

  /**
   A granted multiple write leaves the slave as the single writes do exactly when the settings
   of the registers it clears, the first one apart, were already in force.
   */
  lemma MultipleWriteIsSingles(slave: Slave, frame: Frame, resistance: Resistances)
    requires GrantedWrite(frame) && frame[1] == WRITE_MULTIPLE
    ensures var values := Payload(frame, Quantity(frame));
            Serve(slave, frame, resistance).slave == Run(slave, Singles(Start(frame), values, resistance))
            <==> Updated(slave.live, Cleared(slave.holding, Start(frame), values)) == slave.live
  {
    var values := Payload(frame, Quantity(frame));
    MultipleServed(slave, frame, resistance);
    SinglesStore(slave, Start(frame), values, resistance);
    StoredInTurnIs(slave, Start(frame), values);
    SameSlave(slave, StoredInTurn(slave, Start(frame), values), Start(frame), values);
  }

  lemma SameSlave(slave: Slave, after: Slave, start: nat, values: seq<uint16>)
    requires AfterSingles(slave, after, start, values)
    ensures after == Stored(slave, Overwrite(slave.holding, start, values))
       <==> Updated(slave.live, Cleared(slave.holding, start, values)) == slave.live
  {
    ClearedDecides(slave.live, slave.holding, start, values);
  }

  lemma OverwriteOne(h: HoldingRegisters, start: nat, values: seq<uint16>)
    requires |values| == 1 && start < HOLDING_COUNT
    ensures Overwrite(h, start, values) == h[start := values[0]]
  {
  }

  /** Writing one register is the same request under either function code, whatever the state. */
  lemma OneRegisterWrites(slave: Slave, frame: Frame, resistance: Resistances)
    requires GrantedWrite(frame) && frame[1] == WRITE_MULTIPLE && Quantity(frame) == 1
    ensures Serve(slave, frame, resistance).slave
         == Run(slave, [SingleWrite(Start(frame), Word(frame[7], frame[8]), resistance)])
  {
    var v := Word(frame[7], frame[8]);
    var singles := [SingleWrite(Start(frame), v, resistance)];
    assert Payload(frame, Quantity(frame))[0] == v;
    MultipleServed(slave, frame, resistance);
    OverwriteOne(slave.holding, Start(frame), Payload(frame, Quantity(frame)));
    SingleWriteServed(slave, Start(frame), v, resistance);
    assert singles[..0] == [];
  }

  // ----- Which sessions meet the condition -----

  /** Once any write was granted, every register's setting is in force. */
  lemma {:induction false} InForceAfterWrite(requests: seq<Request>)
    requires exists i | 0 <= i < |requests| :: GrantedWrite(requests[i].frame)
    ensures var slave := Run(BOOT, requests);
            Updated(slave.live, slave.holding) == slave.live
  {
    var n := |requests| - 1;
    var before := Run(BOOT, requests[..n]);
    if GrantedWrite(requests[n].frame) {
      ServeUpdates(before, requests[n]);
      UpdateIdempotent(before.live, Run(BOOT, requests).holding);
    } else {
      var i :| 0 <= i < |requests| && GrantedWrite(requests[i].frame);
      assert requests[..n][i] == requests[i];
      InForceAfterWrite(requests[..n]);
      RefusedChangesNothing(before, requests[n].frame, requests[n].resistance);
    }
  }

  lemma UpdateIdempotent(live: Live, h: HoldingRegisters)
    ensures Updated(Updated(live, h), h) == Updated(live, h)
  {
  }

  lemma ClearedInForce(live: Live, h: HoldingRegisters, start: nat, values: seq<uint16>)
    requires Updated(live, h) == live
    ensures Updated(live, Cleared(h, start, values)) == live
  {
  }

  /** Before the first granted write only the strip mask is not in force. */
  lemma {:induction false} BootUntilWrite(requests: seq<Request>)
    requires forall i | 0 <= i < |requests| :: !GrantedWrite(requests[i].frame)
    ensures Run(BOOT, requests) == BOOT.(input := Run(BOOT, requests).input)
  {
    if requests == [] {
    } else {
      var n := |requests| - 1;
      BootUntilWrite(requests[..n]);
      RefusedChangesNothing(Run(BOOT, requests[..n]), requests[n].frame, requests[n].resistance);
    }
  }

  lemma FactoryMask()
    ensures Digits(8, STRIP_COUNT) != BOOT_LIVE.strips
  {
    DigitAt(8, STRIP_COUNT, 3);
    assert Pow2(3) == 8;
    assert Digits(8, STRIP_COUNT)[3];
  }

  lemma BootInForce(c: HoldingRegisters)
    requires forall r | 0 <= r < HOLDING_COUNT :: c[r] == 0 || c[r] == BOOT_REGISTERS[r]
    ensures Updated(BOOT_LIVE, c) == BOOT_LIVE <==> c[6] == 0
  {
    FactoryMask();
    assert c[0] == 0 || c[0] == 1;
    assert c[1] == 0 || c[1] == 50;
    assert c[2] == 0 || c[2] == 50;
    assert c[3] == 0 || c[3] == 21000;
    assert c[4] == 0 || c[4] == 1000;
    assert c[5] == 0 || c[5] == 8;
    assert c[6] == 0 || c[6] == 8;
  }

  /** Whether a write covers register 6 after others and sets it to 0. */
  predicate ClearsStripMaskLate(start: nat, values: seq<uint16>) {
    start < 6 == start + |values| - 1 && values[6 - start] == 0
  }

  lemma ClearedAtBoot(start: nat, values: seq<uint16>)
    requires start + |values| <= HOLDING_COUNT
    ensures Updated(BOOT_LIVE, Cleared(BOOT_REGISTERS, start, values)) == BOOT_LIVE
       <==> !ClearsStripMaskLate(start, values)
  {
    var c := Cleared(BOOT_REGISTERS, start, values);
    assert c[6] == if ClearsStripMaskLate(start, values) then 8 else 0;
    BootInForce(c);
  }

  ghost predicate AnyWrite(requests: seq<Request>) {
    exists i | 0 <= i < |requests| :: GrantedWrite(requests[i].frame)
  }

  lemma SessionCondition(requests: seq<Request>, start: nat, values: seq<uint16>)
    requires start + |values| <= HOLDING_COUNT
    ensures var slave := Run(BOOT, requests);
            Updated(slave.live, Cleared(slave.holding, start, values)) == slave.live
            <==> AnyWrite(requests) || !ClearsStripMaskLate(start, values)
  {
    if AnyWrite(requests) {
      InForceAfterWrite(requests);
      ClearedInForce(Run(BOOT, requests).live, Run(BOOT, requests).holding, start, values);
    } else {
      BootUntilWrite(requests);
      ClearedAtBoot(start, values);
    }
  }

  /**
   In any session from power-up, a granted multiple write does what its single writes do,
   unless it is the first granted write, starts below register 6 and clears register 6.
   */
  lemma MultipleWriteInSession(requests: seq<Request>, frame: Frame, resistance: Resistances)
    requires GrantedWrite(frame) && frame[1] == WRITE_MULTIPLE
    ensures var values := Payload(frame, Quantity(frame));
            Serve(Run(BOOT, requests), frame, resistance).slave
            == Run(Run(BOOT, requests), Singles(Start(frame), values, resistance))
            <==> AnyWrite(requests) || !ClearsStripMaskLate(Start(frame), values)
  {
    MultipleWriteIsSingles(Run(BOOT, requests), frame, resistance);
    SessionCondition(requests, Start(frame), Payload(frame, Quantity(frame)));
  }
}
