/** The scheduler as the firmware runs it: interrupt handlers that update global state in place. */
module Scheduler {
  import opened Acquisition
  import opened Binary
  import opened Parameters
  import opened Strips
  import opened Wrappers

  class Device {
    const modbusFlag: bool
    const activeStrips: array<bool>
    const sampleTable: array<Sample>
    const resistanceArray: array<Reading>
    var stripCount: nat
    var timerRunning: bool
    var activeStripIndices: array<Channel>
    var currentActiveStripIndex: nat
    var currentCountIndex: nat
    var voltageSum: uint32
    var currentSum: uint32
    var totalAdcSummation: uint32
    var timestamp: uint32
    var pinS0: bool
    var pinS1: bool
    var pinS2: bool
    /** A handler has read past the channel list or divided by zero strips; from then on nothing is claimed. */
    ghost var faulted: bool

    ghost predicate Valid()
      reads this
    {
      && activeStrips.Length == STRIP_COUNT && sampleTable.Length == STRIP_COUNT && resistanceArray.Length == STRIP_COUNT
    }

    ghost function View(): State
      requires Valid()
      reads this, activeStrips, sampleTable, resistanceArray, activeStripIndices
    {
      State(activeStrips[..], stripCount, modbusFlag, timerRunning, activeStripIndices[..], currentActiveStripIndex,
            currentCountIndex, voltageSum, currentSum, totalAdcSummation, sampleTable[..], resistanceArray[..],
            timestamp, Pins(pinS0, pinS1, pinS2), faulted)
    }

    constructor (modbus: bool)
      ensures Valid() && View() == Boot(modbus)
      ensures fresh(activeStrips) && fresh(sampleTable) && fresh(resistanceArray) && fresh(activeStripIndices)
    {
      modbusFlag := modbus;
      activeStrips := new bool[STRIP_COUNT](_ => false);
      sampleTable := new Sample[STRIP_COUNT](_ => Sample(0, 0));
      resistanceArray := new Reading[STRIP_COUNT](_ => Reading(Some(0), 0));
      stripCount, timerRunning := 0, false;
      activeStripIndices := new Channel[0];
      currentActiveStripIndex, currentCountIndex := 0, 0;
      voltageSum, currentSum, totalAdcSummation, timestamp := 0, 0, 0, 0;
      pinS0, pinS1, pinS2 := false, false, false;
      faulted := false;
      new;
      assert activeStrips[..] == BOOT_LIVE.strips;
      assert sampleTable[..] == NoSamples();
      assert resistanceArray[..] == NoReadings();
      assert activeStripIndices[..] == [];
    }

    /** ADC0_IRQHandler. */
    method VoltageConverted(value: uint16)
      requires Valid() && !faulted
      modifies this`voltageSum
      ensures View() == Step(old(View()), Voltage(value))
    {
      voltageSum := (voltageSum + value) % U32;
    }

    /** ADC1_IRQHandler. */
    method CurrentConverted(value: uint16)
      requires Valid() && !faulted
      modifies this`currentSum
      ensures View() == Step(old(View()), Current(value))
    {
      currentSum := (currentSum + value) % U32;
    }

    /** SysTick_Handler. */
    method SysTick()
      requires Valid() && !faulted
      modifies this`timestamp
      ensures View() == Step(old(View()), Millisecond)
    {
      timestamp := (timestamp + 1) % U32;
    }

    /** SelectMuxChannel: one pin after the other. */
    method SelectMuxChannel(channel: int)
      modifies this`pinS0, this`pinS1, this`pinS2
      ensures Pins(pinS0, pinS1, pinS2) == Select(channel)
    {
      var adjusted := channel % 256;
      pinS0 := adjusted % 2 == 1;
      pinS1 := adjusted / 2 % 2 == 1;
      pinS2 := adjusted / 4 % 2 == 1;
    }

    /** calculate_resistance_array. */
    method CalculateResistanceArray()
      requires Valid() && stripCount > 0
      modifies resistanceArray, this`totalAdcSummation
      ensures resistanceArray[..] == Computed(activeStrips[..], sampleTable[..], old(resistanceArray[..]),
                                              Averaged(old(totalAdcSummation), stripCount))
      ensures totalAdcSummation == 0
    {
      var i := 0;
      while i < STRIP_COUNT
        invariant 0 <= i <= STRIP_COUNT
        invariant forall j | 0 <= j < STRIP_COUNT ::
            resistanceArray[j] == if j < i && activeStrips[j]
                                  then Reading(Ohms(sampleTable[j].value, Averaged(totalAdcSummation, stripCount)),
                                               AsInt(sampleTable[j].time))
                                  else old(resistanceArray[j])
        modifies resistanceArray
      {
        if activeStrips[i] {
          var averagedCurrent := Averaged(totalAdcSummation, stripCount);
          resistanceArray[i] := Reading(Ohms(sampleTable[i].value, averagedCurrent), AsInt(sampleTable[i].time));
        }
        i := i + 1;
      }
      totalAdcSummation := 0;
    }

    /** FirstActiveStrip. */
    method FirstActiveStrip() returns (first: int)
      requires Valid()
      ensures first == FirstActive(activeStrips[..])
    {
      ghost var flags := activeStrips[..];
      ActiveListed(flags);
      var i := 0;
      while i < STRIP_COUNT
        invariant 0 <= i <= STRIP_COUNT
        invariant forall j | 0 <= j < i :: !activeStrips[j]
      {
        if activeStrips[i] {
          assert (i as Channel) in ActiveList(flags);
          assert flags[ActiveList(flags)[0]];
          return i;
        }
        i := i + 1;
      }
      if ActiveList(flags) != [] {
        assert ActiveList(flags)[0] in ActiveList(flags);
      }
      return -1;
    }

    /** ConvertActiveStrips: a new list of exactly the active strips. */
    method ConvertActiveStrips()
      requires Valid() && stripCount == Count(activeStrips[..])
      modifies this`activeStripIndices
      ensures fresh(activeStripIndices) && activeStripIndices[..] == ActiveList(activeStrips[..])
    {
      ghost var flags := activeStrips[..];
      var list := new Channel[stripCount];
      var index, i := 0, 0;
      ActiveListed(flags);
      while i < STRIP_COUNT
        invariant 0 <= i <= STRIP_COUNT && activeStrips[..] == flags
        invariant index == |ActiveBelow(flags, i)| <= list.Length
        invariant list[..index] == ActiveBelow(flags, i)
      {
        if activeStrips[i] {
          BelowFits(flags, i + 1);
          list[index] := i;
          index := index + 1;
        }
        i := i + 1;
      }
      activeStripIndices := list;
      assert list[..] == list[..index];
    }

    /** Records the averages of the window that closes. */
    method RecordWindow()
      requires Valid() && currentActiveStripIndex < activeStripIndices.Length
      modifies sampleTable, this`totalAdcSummation, this`currentSum, this`voltageSum, this`currentCountIndex
      ensures sampleTable[..] == old(sampleTable[..])[activeStripIndices[currentActiveStripIndex] :=
                                                       Sample(old(voltageSum) / AVERAGE_COUNT, timestamp)]
      ensures totalAdcSummation == (old(totalAdcSummation) + old(currentSum) / AVERAGE_COUNT) % U32
      ensures currentSum == voltageSum == currentCountIndex == 0
    {
      var currentAdcResult := currentSum / AVERAGE_COUNT;
      var resultVoltage := voltageSum / AVERAGE_COUNT;
      totalAdcSummation := (totalAdcSummation + currentAdcResult) % U32;
      var currentChannel := activeStripIndices[currentActiveStripIndex];
      sampleTable[currentChannel] := Sample(resultVoltage, timestamp);
      currentSum, voltageSum, currentCountIndex := 0, 0, 0;
    }

    /** Moves on to the next strip and, after the last one, computes the readings. */
    method AdvanceStrip()
      requires Valid() && stripCount > 0 && (currentActiveStripIndex + 1) % stripCount < activeStripIndices.Length
      modifies resistanceArray, this`totalAdcSummation, this`currentActiveStripIndex, this`pinS0, this`pinS1, this`pinS2
      ensures currentActiveStripIndex == (old(currentActiveStripIndex) + 1) % stripCount
      ensures resistanceArray[..] == if currentActiveStripIndex == 0
                                     then Computed(activeStrips[..], sampleTable[..], old(resistanceArray[..]),
                                                   Averaged(old(totalAdcSummation), stripCount))
                                     else old(resistanceArray[..])
      ensures totalAdcSummation == if currentActiveStripIndex == 0 then 0 else old(totalAdcSummation)
      ensures Pins(pinS0, pinS1, pinS2) == Select(activeStripIndices[currentActiveStripIndex])
    {
      currentActiveStripIndex := (currentActiveStripIndex + 1) % stripCount;
      if currentActiveStripIndex == 0 {
        CalculateResistanceArray();
      }
      SelectMuxChannel(activeStripIndices[currentActiveStripIndex]);
    }

    /** The else branch of CTIMER2_IRQHandler. */
    method CloseAveragingWindow()
      requires Valid() && CloseDefined(View())
      modifies this, sampleTable, resistanceArray
      ensures Valid() && activeStripIndices == old(activeStripIndices)
      ensures View() == CloseWindow(old(View()))
    {
      RecordWindow();
      AdvanceStrip();
    }

    /** CTIMER2_IRQHandler; where closing a window has no meaning in C, it marks the fault and stops. */
    method Timer()
      requires Valid() && timerRunning && !faulted
      modifies this, sampleTable, resistanceArray
      ensures Valid() && activeStripIndices == old(activeStripIndices)
      ensures View() == Step(old(View()), Tick)
    {
      if stripCount == 0 && !modbusFlag {
        return;
      }
      if currentCountIndex < AVERAGE_COUNT - 1 {
        currentCountIndex := currentCountIndex + 1;
      } else if currentActiveStripIndex >= activeStripIndices.Length || stripCount == 0
                || (currentActiveStripIndex + 1) % stripCount >= activeStripIndices.Length {
        faulted := true;
      } else {
        CloseAveragingWindow();
      }
    }

    /** The flags and count of a parameter update, as the strip loops set them. */
    method SetStrips(strips: StripFlags)
      requires Valid()
      modifies activeStrips, this`stripCount
      ensures activeStrips[..] == strips && stripCount == Count(strips)
    {
      stripCount := 0;
      var i := 0;
      while i < STRIP_COUNT
        invariant 0 <= i <= STRIP_COUNT
        invariant activeStrips[..i] == strips[..i] && stripCount == Count(strips[..i])
      {
        assert strips[..i + 1][..i] == strips[..i];
        activeStrips[i] := strips[i];
        if strips[i] {
          stripCount := stripCount + 1;
        }
        i := i + 1;
      }
      assert strips[..STRIP_COUNT] == strips;
    }

    /** What InitializeAllPeripherals does once the hot plate is set up. */
    method InitializeMeasurement()
      requires Valid() && stripCount == Count(activeStrips[..])
      modifies resistanceArray, this`pinS0, this`pinS1, this`pinS2, this`activeStripIndices,
        this`currentActiveStripIndex, this`currentCountIndex, this`timerRunning, this`timestamp
      ensures fresh(activeStripIndices) && activeStripIndices[..] == ActiveList(activeStrips[..])
      ensures Pins(pinS0, pinS1, pinS2) == Select(FirstActive(activeStrips[..]))
      ensures currentActiveStripIndex == currentCountIndex == timestamp == 0 && timerRunning
      ensures resistanceArray[..] == NoReadings()
    {
      ghost var flags := activeStrips[..];
      var first := FirstActiveStrip();
      SelectMuxChannel(first);
      ConvertActiveStrips();
      assert activeStripIndices[..] == ActiveList(flags);
      currentActiveStripIndex, currentCountIndex, timerRunning := 0, 0, true;
      timestamp := 0;
      forall i | 0 <= i < STRIP_COUNT {
        resistanceArray[i] := Reading(Some(0), 0);
      }
      assert activeStrips[..] == flags && activeStripIndices[..] == ActiveList(flags);
      assert resistanceArray[..] == NoReadings();
    }

    /** A parameter update followed by InitializeAllPeripherals, which stops early when the hot plate cannot be set up. */
    method Reconfigure(strips: StripFlags, ready: bool)
      requires Valid() && !faulted
      modifies this, activeStrips, resistanceArray
      ensures Valid() && (activeStripIndices == old(activeStripIndices) || fresh(activeStripIndices))
      ensures View() == Step(old(View()), Event.Reconfigure(strips, ready))
    {
      SetStrips(strips);
      if ready {
        InitializeMeasurement();
      }
    }
  }

  lemma {:induction false} BelowFits(flags: StripFlags, k: nat)
    requires k <= STRIP_COUNT
    ensures |ActiveBelow(flags, k)| <= |ActiveList(flags)|
    decreases STRIP_COUNT - k
  {
    if k == STRIP_COUNT {
    } else {
      BelowFits(flags, k + 1);
    }
  }
}
