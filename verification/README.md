# Verified model of the graphene-strip read-out firmware

The firmware measures up to eight graphene strips in turn, drives a micro hot plate with a
periodic wave, and is configured and read over Modbus RTU.  This project models its logic in
Dafny and proves how it behaves over every input and every run.  `dafny verify dfyconfig.toml`
checks everything, and no proof leans on automatic induction.

How the modules fit together:

- `ShiftRegister`, `Crc16`: the check value.  The theory of feedback shift registers is developed
  over an abstract word and applied to the 16-bit register of the link.
- `Parameters`, `Modbus`, `Replies`, `Protocol`, `Sessions`, `WriteOrder`: the slave as a function from
  requests to replies, the protocol in plain numbers, and its behaviour over whole sessions, stated
  against histories that are read off the requests alone.
- `Framing`, `Polling`, `ModbusDevice`: how a byte stream divides into frames, the main loop, and the
  slave as a class that updates registers, buffers and globals in place, one byte at a time.
- `Strips`, `Acquisition`, `Rounds`, `Sweeps`, `Truncation`, `Windows`, `Conversions`, `History`,
  `Carryover`, `Overflow`, `Safety`, `Scheduler`: the measurement scheduler as a state machine, its runs, and the
  class whose handlers make its steps.
- `HotPlate`, `WaveBuffer`, `HotPlateSessions`: the wave, its scaling and playback, and what the
  registers ask of it.  `Gain`: the gain expansion of the converter calibration.
- `Instrument`, `Survival`, `Readout`: requests, interrupts and hot plate together, from power-up;
  exactly which requests keep scheduler and hot plate without a fault; and what a read returns.
- `Binary`, `Reals`, `Wrappers`: shared facts.

Assumptions.  Every interrupt handler, and a parameter update together with the
reinitialisation that follows it, is one atomic step.  The timer interrupt (priority 2) outranks
the converter interrupts (priority 3), so a result never lands inside a tick.  Floats are exact
reals.  An access outside the channel list, a division by zero strips or samples, and a conversion
of a wave sample that no unsigned integer holds each set a fault mark, and "never faults" means
that none of them happens; after one, nothing is claimed.  The conversion of a resistance is not
among them: where its quotient is by zero or comes to 2^31 or more, the reading has no value, and
whatever a compiler leaves there is a parameter.  A time from 2^31 ms on is stored as the negative
int of the same bits.

Where the code differs from its own comments the model follows the code:

- `modbus.h` line 39 calls register 6 a strip count from 0 to 8 as well as a bit mask; the code
  reads a mask, so the boot value 8 means one strip (`Sessions.BootMaskIsOneStrip`).
- The wave generators promise values from 0 to 16383; that holds only for amplitudes below 28,
  and because amplitude is a whole number divided by 7 it is scaled in steps of 7 volts
  (`HotPlate.ScaledInRange`).
- `adc_16_strip.c` line 286 speaks of starting a new measurement; sums and running total are not
  cleared there (`Carryover.SecondMeasurement`, `Overflow.FourthOverflows`,
  `Windows.WindowComposition`).
- In Modbus mode the result of `InitializeAllPeripherals` is ignored; when the hot-plate setup
  fails, new strip flags stand beside the old channel list, and the new wave size beside the old
  wave (`Survival.NothingFaultsExactly`).  A setup without strips succeeds (`Survival.NoStripFaults`).

## Model

| member | source | states |
|---|---|---|
| `Crc16.ModbusCrc16` | Gas_sensor_read_out/source/Modbus_files/modbus.c:96-142 | the table-driven loop returns, for every message, the bit-serial reflected CRC-16 (polynomial 0xA001, start 0xFFFF) of section 6.2.2 of MODBUS over Serial Line V1.02 |
| `Crc16.TableEntry` | Gas_sensor_read_out/source/Modbus_files/modbus.c:98-130 | each of the 256 table words is eight bit-serial shifts of its index |
| `Crc16.ByteStepFeedsBits` | Gas_sensor_read_out/source/Modbus_files/modbus.c:135-140 | one round of the table loop equals feeding the eight bits of the byte, least significant first, to the bit-serial register |
| `Crc16.CrcDetectsBursts` | Gas_sensor_read_out/source/Modbus_files/modbus.c:132-142 | two equal-length messages whose bits differ only inside a window of at most 16 bits, at any bit position, have different check values |
| `Crc16.CrcDetectsTwoBytes` | Gas_sensor_read_out/source/Modbus_files/modbus.c:132-142 | so do two messages that differ only inside one byte or two adjacent bytes |
| `Crc16.CrcResidueExact` | Gas_sensor_read_out/source/Modbus_files/modbus.c:216-218 | a message followed by two bytes has check value 0 exactly when those bytes are its own check value, low byte first |
| `Crc16.PresetExactly` | Gas_sensor_read_out/source/Modbus_files/modbus.c:133-142 | for every message of two or more bytes the check value is what a register started at 0 makes of the message with its first sixteen bits complemented; of all presets only 0xFFFF does that |
| `Crc16.StandardExample` | Gas_sensor_read_out/source/Modbus_files/modbus.c:96-142 | 02 07 has the check value 0x1241, sent as 41 12, the example of section 6.2.2 of MODBUS over Serial Line V1.02 |
| `ShiftRegister.Register.BurstDetected` | Gas_sensor_read_out/source/Modbus_files/modbus.c:132-142 | the burst argument for any register whose shift is additive and injective |
| `Replies.OneReplyPerRequest` | Gas_sensor_read_out/source/Modbus_files/modbus.c:145-188 | a delivered request gets a reply if and only if it carries the slave address 0x01 |
| `Replies.ReplySound` | Gas_sensor_read_out/source/Modbus_files/modbus.c:145-275 | every reply has 5 to 21 bytes, checks to 0, and is an exception (top bit set, right reason) exactly for the requests that the address and count rules refuse |
| `Replies.RefusedChangesNothing` | Gas_sensor_read_out/source/Modbus_files/modbus.c:201-232 | foreign addresses, refused requests and reads change no holding register, no parameter and not the change flag |
| `Replies.EchoTellsRequestCrc` | Gas_sensor_read_out/source/Modbus_files/modbus.c:278-313 | the answer to a granted 0x06 equals the request if and only if the request itself had the right check value, which is never tested |
| `Replies.ReadReplyCarries` | Gas_sensor_read_out/source/Modbus_files/modbus.c:203-218 | a granted read reply has exactly 5 + 2n bytes, byte count 2n, and the requested registers high byte first |
| `Replies.InputReadCarries` | Gas_sensor_read_out/source/Modbus_files/modbus.c:240-269 | a granted 0x04 returns the resistances of the requested strips modulo 2^16 |
| `Replies.WriteEchoes` | Gas_sensor_read_out/source/Modbus_files/modbus.c:299-305 | a granted write is answered with the first six bytes of the request and the two bytes of a fresh check value, low byte first |
| `Protocol.ReadHoldingServed` | Gas_sensor_read_out/source/Modbus_files/modbus.c:191-232 | 0x03 in plain numbers: up to seven registers from 0 on, high byte first, else exception 2; nothing changes |
| `Protocol.ReadInputServed` | Gas_sensor_read_out/source/Modbus_files/modbus.c:235-275 | 0x04 in plain numbers: up to eight resistances modulo 2^16, else exception 2; only the input registers change |
| `Protocol.WriteSingleServed` | Gas_sensor_read_out/source/Modbus_files/modbus.c:278-313 | 0x06 in plain numbers: one of seven registers takes the value and six bytes are echoed, else exception 2 |
| `Protocol.WriteMultipleServed` | Gas_sensor_read_out/source/Modbus_files/modbus.c:316-368 | 0x10 in plain numbers: accepted if and only if it names one or more of the seven registers and twice as many bytes; then exactly those registers take the values carried, else exception 2 and no change |
| `Protocol.ValuesStored` | Gas_sensor_read_out/source/Modbus_files/modbus.c:331-348 | any one to seven values written by 0x10 to existing registers are stored there, the others keep theirs, and the request is echoed, whatever its check value |
| `Protocol.OtherFunctionsRefused` | Gas_sensor_read_out/source/Modbus_files/modbus.c:180-187 | any other function code is answered by itself with the top bit set and exception 1 |
| `Protocol.ForeignIgnored` | Gas_sensor_read_out/source/Modbus_files/modbus.c:145-160 | a request to an address other than 1 is neither answered nor carried out |
| `Protocol.PowerUpRead` | Gas_sensor_read_out/source/Modbus_files/modbus.c:9 | the first read of all registers gives 1, 50, 50, 21000, 1000, 8 and 8 |
| `Sessions.RegisterStore` | Gas_sensor_read_out/source/Modbus_files/modbus.c:9 | after any sequence of requests each holding register equals the last value a granted 0x06 or 0x10 wrote to it, or its boot value |
| `Sessions.ReadReturnsLastWrites` | Gas_sensor_read_out/source/Modbus_files/modbus.c:191-218 | a granted 0x03 after any session returns exactly those last values |
| `Sessions.LiveConfiguration` | Gas_sensor_read_out/source/Modbus_files/modbus.c:371-436 | after any session each numeric parameter is the scaled last nonzero value its register held at a granted write, or its boot default; the strips are the low eight bits of such a register 6 and the strip count their popcount |
| `Sessions.BootMaskIsOneStrip` | Gas_sensor_read_out/source/Modbus_files/modbus.c:412-433 | the boot value 8 of register 6 is a mask: a session that never writes it switches on exactly the strip of index 3 |
| `WriteOrder.MultipleWriteIsSingles` | Gas_sensor_read_out/source/Modbus_files/modbus.c:316-348 | a granted 0x10 leaves the slave exactly as the same 0x06 writes in ascending order if and only if applying the old values of the registers it clears, the first apart, would change no parameter |
| `WriteOrder.MultipleWriteInSession` | Gas_sensor_read_out/source/Modbus_files/modbus.c:316-348 | in every session from power-up that is: unless the write is the first granted one, starts below register 6 and clears register 6 |
| `WriteOrder.OneRegisterWrites` | Gas_sensor_read_out/source/Modbus_files/modbus.c:316-368 | a 0x10 of one register has the same effect on the state as the 0x06, in every state |
| `Framing.DivideKeepsBytes` | Gas_sensor_read_out/source/Modbus_files/modbus.c:44-94 | for every byte stream the delivered frames followed by the left-over bytes are the stream: no byte is lost, repeated or moved |
| `Framing.DivideIsComplete` | Gas_sensor_read_out/source/Modbus_files/modbus.c:58-90 | every delivered frame fits the buffer and the left-over bytes hold no whole frame |
| `Framing.FirstDelivered` | Gas_sensor_read_out/source/Modbus_files/modbus.c:58-90 | the first frame delivered is the first eight bytes or, for 0x10, the first nine and as many as it announces, up to 247, as soon as they have come; else nothing is delivered |
| `Framing.DivideRecoversFrames` | Gas_sensor_read_out/source/Modbus_files/modbus.c:44-94 | any requests of these two shapes sent back to back are delivered exactly, in order, whatever follows |
| `Framing.StallsExactly` | Gas_sensor_read_out/source/Modbus_files/modbus.c:53-73 | after eight bytes some continuation completes a frame if and only if they do not announce a 0x10 with a byte count of 248 or more |
| `ModbusDevice.Device.Receive` | Gas_sensor_read_out/source/Modbus_files/modbus.c:46-91 | the receive loop delivers exactly the first frame before the next failing read; without one it takes and drops every byte up to that read; with the change flag up it drops one byte |
| `ModbusDevice.Device.HandleModbusFrame` | Gas_sensor_read_out/source/Modbus_files/modbus.c:44-94 | one call serves exactly the first frame, or nothing, and leaves the rest of the line as it was |
| `ModbusDevice.Device.HandleRequest` | Gas_sensor_read_out/source/Modbus_files/modbus.c:145-188 | registers, parameters and transmissions go exactly where the specification `Serve` says |
| `ModbusDevice.Device.HandleReadHoldingRegister` | Gas_sensor_read_out/source/Modbus_files/modbus.c:191-232 | the reply loop over a byte buffer yields the specified reply |
| `ModbusDevice.Device.HandleReadInputRegister` | Gas_sensor_read_out/source/Modbus_files/modbus.c:235-275 | the input registers take the current resistances and the reply carries them |
| `ModbusDevice.Device.HandleWriteSingleRegister` | Gas_sensor_read_out/source/Modbus_files/modbus.c:278-313 | one register is replaced, all seven are applied, six bytes are echoed |
| `ModbusDevice.Device.HandleWriteMultipleRegisters` | Gas_sensor_read_out/source/Modbus_files/modbus.c:316-368 | the payload replaces its registers and only those, with the count and address checks in the order of the code |
| `ModbusDevice.Device.UpdateParameters` | Gas_sensor_read_out/source/Modbus_files/modbus.c:371-436 | each nonzero register replaces its parameter, a zero keeps it |
| `ModbusDevice.Device.SendError` | Gas_sensor_read_out/source/Modbus_files/modbus.c:459-471 | the exception frame under its check value |
| `ModbusDevice.Device.MainLoop` | Gas_sensor_read_out/source/main.c:339-350 | serving a line on which reads fail at any points serves the frames of its bursts in order, each with the resistances of that moment, and reinitialises the peripherals after each granted write |
| `Polling.PollIsRun` | Gas_sensor_read_out/source/main.c:341-348 | the main loop ends in the state of the plain session of its requests, with the change flag down |
| `Polling.PollTallies` | Gas_sensor_read_out/source/main.c:341-348 | one transmission per frame with the slave address and one reinitialisation per granted write |
| `Polling.PollLast` | Gas_sensor_read_out/source/main.c:341-348 | each request adds the reply of the plain session and, if it is a granted write, a reinitialisation with the live configuration of that session |
| `Polling.StreamSession` | Gas_sensor_read_out/source/main.c:341-348 | after any byte stream from power-up, cut anywhere by failing reads, registers and parameters are those of the delivered requests |
| `Strips.ActiveListed` | Gas_sensor_read_out/source/ADC_files/adc_16_strip.c:315-337 | the channel list holds exactly the active strips, each once, ascending, and is as long as the strip count |
| `Strips.SelectDecodes` | Gas_sensor_read_out/source/MUX_files/gpio_for_mux.c:38-46 | the three select pins decode to the channel they were set from |
| `Strips.SelectBits` | Gas_sensor_read_out/source/MUX_files/gpio_for_mux.c:38-46 | pin 0 is high for channels 1, 3, 5, 7, pin 1 for 2, 3, 6, 7, pin 2 for 4 to 7, and all of them without a channel |
| `Strips.FirstActiveIs` | Gas_sensor_read_out/source/ADC_files/adc_16_strip.c:340-348 | the first active strip is the least one, and -1 if and only if there is none |
| `Scheduler.Device.FirstActiveStrip` | Gas_sensor_read_out/source/ADC_files/adc_16_strip.c:340-348 | the first active strip is the head of that list, -1 if there is none |
| `Scheduler.Device.ConvertActiveStrips` | Gas_sensor_read_out/source/ADC_files/adc_16_strip.c:315-337 | the loop builds exactly that list in a fresh array |
| `Scheduler.Device.SelectMuxChannel` | Gas_sensor_read_out/source/MUX_files/gpio_for_mux.c:38-46 | writing the pins one after the other leaves the setting of the channel |
| `Scheduler.Device.CalculateResistanceArray` | Gas_sensor_read_out/source/ADC_files/adc_16_strip.c:291-313 | active strips get value and time as 32-bit ints, with no value where the conversion has no meaning, others keep theirs, the total is cleared |
| `Scheduler.Device.Timer` | Gas_sensor_read_out/source/ADC_files/adc_16_strip.c:357-416 | the tick handler makes exactly the specified step, and marks a fault exactly where it reads past the channel list or divides by zero strips |
| `Scheduler.Device.VoltageConverted` | Gas_sensor_read_out/source/ADC_files/adc_16_strip.c:108-115 | an ADC0 result is added to the voltage sum modulo 2^32 and nothing else changes |
| `Scheduler.Device.CurrentConverted` | Gas_sensor_read_out/source/ADC_files/adc_16_strip.c:120-127 | an ADC1 result is added to the current sum modulo 2^32 and nothing else changes |
| `Scheduler.Device.SysTick` | Gas_sensor_read_out/source/main.c:31-34 | the clock advances by one modulo 2^32 |
| `Scheduler.Device.Reconfigure` | Gas_sensor_read_out/source/main.c:123-176 | a reconfiguration makes exactly the specified step, also where the hot-plate setup fails and the rest is skipped |
| `Rounds.RoundRobin` | Gas_sensor_read_out/source/ADC_files/adc_16_strip.c:364-416 | t ticks after a reconfiguration the tick counter is t mod 30, the strip index t/30 mod n, the pins carry that strip, and t/30 windows have closed on the strips in turn |
| `Sweeps.EvenCoverage` | Gas_sensor_read_out/source/ADC_files/adc_16_strip.c:387-404 | after 30*n*k ticks every active strip has been recorded exactly k times and no other strip ever |
| `Sweeps.GroupedAt` | Gas_sensor_read_out/source/ADC_files/adc_16_strip.c:400-407 | sweep i consists of windows n*i to n*i + n - 1 of the run |
| `Sweeps.SweepReport` | Gas_sensor_read_out/source/ADC_files/adc_16_strip.c:291-313 | at every moment after a complete sweep each active strip shows, as ints, resistance and time of its window in the last complete sweep, computed from that sweep alone (the first one also from what the total held before); inactive strips stay (0, 0) |
| `Sweeps.SweepTimes` | Gas_sensor_read_out/source/ADC_files/adc_16_strip.c:387-394 | without clock wrap windows close in strip order and after those of the sweep before; the times shown for them keep that order if and only if the clock did not pass 2^31 in between, where the int turns negative |
| `Sweeps.SweepTimesRise` | Gas_sensor_read_out/source/ADC_files/adc_16_strip.c:387-394 | so up to 2^31 ms the shown times rise in strip order |
| `Sweeps.AsIntExactly` | Gas_sensor_read_out/source/ADC_files/adc_16_strip.c:297 | a stored time is the int within 32 bits that differs from the clock by 0 or 2^32 |
| `Sweeps.ShownTime` | Gas_sensor_read_out/source/ADC_files/adc_16_strip.c:387-394 | the time shown for the p-th strip is the number of milliseconds before the tick that closed its window in the last complete sweep, the thirtieth of that window, as long as it stays below 2^31, and its low 32 bits beyond |
| `Sweeps.InactiveKeeps` | Gas_sensor_read_out/source/ADC_files/adc_16_strip.c:291-313 | a strip that is not active keeps its reading until the next reconfiguration |
| `History.SamplesAreLatest` | Gas_sensor_read_out/source/ADC_files/adc_16_strip.c:387-394 | over any run from power-up with any reconfigurations, failed ones included, the sample table holds for each channel the last window that closed on it |
| `History.TotalIsPending` | Gas_sensor_read_out/source/ADC_files/adc_16_strip.c:380-382 | over any such run the total is the averaged current of the windows closed since the turn of the first strip last came round, modulo 2^32 |
| `History.TickShows` | Gas_sensor_read_out/source/ADC_files/adc_16_strip.c:369-414 | in any such run, when that turn comes round, each active strip shows the last window that closed on it over the averaged current of the windows pending, divided by the strip count then in force; all other readings stay |
| `History.PlaceAdvances` | Gas_sensor_read_out/source/ADC_files/adc_16_strip.c:398 | m windows later, without a reconfiguration, the place in the list has moved on by m modulo the strip count, also where a failed reconfiguration changed that count |
| `History.EmptyRestart` | Gas_sensor_read_out/source/main.c:222-235 | a successful reconfiguration without a strip leaves an empty list and all select pins high |
| `Truncation.NestedTruncation` | Gas_sensor_read_out/source/ADC_files/adc_16_strip.c:380-382 | a sweep that starts with an empty total never overflows and reports a current below the exact mean by at least 0 and less than 2 |
| `Carryover.SecondMeasurement` | Gas_sensor_read_out/source/ADC_files/adc_16_strip.c:286-313 | of a second measurement the first sweep reports faithfully, in that sense, in every paced continuation if and only if the sweep that the first measurement left unfinished had no averaged current: the reconfiguration clears neither sums nor total |
| `Carryover.FirstSweepFrom` | Gas_sensor_read_out/source/ADC_files/adc_16_strip.c:286-313 | the same at any reconfiguration: every paced continuation reports its first sweep faithfully if and only if the running total is 0, as long as sum and total have room for one more window |
| `Carryover.MisreportHappens` | Gas_sensor_read_out/source/ADC_files/adc_16_strip.c:286-313 | a first measurement of two or more strips that is cut off after one window of current 30 does bring a misreport about |
| `Truncation.OhmsIs` | Gas_sensor_read_out/source/ADC_files/adc_16_strip.c:302-305 | for a nonzero current the reading is V/I * 120 * 75 + 0.5 truncated, where that is a 32-bit int |
| `Truncation.NearestOhm` | Gas_sensor_read_out/source/ADC_files/adc_16_strip.c:302-305 | it is the whole number nearest to 9000*V/I, the upper one of two equally near, and exists if and only if 18000*V < (2^32 - 1)*I |
| `Overflow.EarlyReadingsConvert` | Gas_sensor_read_out/source/ADC_files/adc_16_strip.c:291-313 | in the first three measurements from power-up, however early each is cut off, a reading has no int at a moment if and only if its strip is active and the averaged current of the last complete sweep is 0 |
| `Overflow.FirstSweepConvertsExactly` | Gas_sensor_read_out/source/ADC_files/adc_16_strip.c:286-313 | at any reconfiguration whose sums have room: every paced continuation converts its first sweep, unless its current is 0, if and only if full-scale voltage on top of the kept voltage sum converts at the least current that kept current sum and total allow |
| `Overflow.LaterMeasurement` | Gas_sensor_read_out/source/ADC_files/adc_16_strip.c:286-313 | the first sixty-one measurements from power-up have that room, so for each of them convertibility and faithfulness of the first sweep are decided exactly by the sums and total left over |
| `Overflow.FourthOverflows` | Gas_sensor_read_out/source/ADC_files/adc_16_strip.c:286-313 | after three measurements cut off by a reconfiguration at 29 full-scale beats a fourth can come to 2280618000 ohms, which no int holds |
| `Conversions.ReportIs` | Gas_sensor_read_out/source/ADC_files/adc_16_strip.c:291-398 | what a sweep reports is the rounded quotient of the averages over the conversions of its windows |
| `Windows.SampleConservation` | Gas_sensor_read_out/source/ADC_files/adc_16_strip.c:108-127 | over any run with any reconfigurations, delivered samples equal consumed sums plus the running sum modulo 2^32, for both converters |
| `Windows.WindowComposition` | Gas_sensor_read_out/source/ADC_files/adc_16_strip.c:369-398 | with one conversion per trigger, window k > 0 sums exactly the 30 conversions of ticks 30k to 30k+29, and window 0 those of ticks 1 to 29 plus the residue |
| `Windows.ShareSize` | Gas_sensor_read_out/source/ADC_files/adc_16_strip.c:375-398 | the first window has 29 conversions, every other 30 |
| `Windows.WindowExact` | Gas_sensor_read_out/source/ADC_files/adc_16_strip.c:369-398 | from power-up no sum wraps: each window consumes the plain sum, below 2^21 |
| `Windows.TriggeredOn` | Gas_sensor_read_out/source/ADC_files/adc_16_strip.c:375-414 | the first conversion of every window but the first is triggered while the pins still carry the strip before |
| `Safety.StaysCoherent` | Gas_sensor_read_out/source/ADC_files/adc_16_strip.c:357-416 | in every run whose reconfigurations succeed and name a strip, no access leaves the channel list and the pins carry the strip recorded next |
| `Safety.CoherentFromBoot` | Gas_sensor_read_out/source/ADC_files/adc_16_strip.c:357-416 | which holds of every such run from power-up |
| `Safety.FailureKeeps` | Gas_sensor_read_out/source/main.c:131-141 | a failed reconfiguration leaves channel list, place in it, counter, pins, clock, sums, samples and readings as they were |
| `Safety.FailureCoherent` | Gas_sensor_read_out/source/main.c:131-141 | a failed reconfiguration keeps a running scheduler coherent if and only if it changes no strip |
| `Safety.FailureFaults` | Gas_sensor_read_out/source/main.c:186-214 | after a failed reconfiguration of a coherent scheduler in Modbus mode some run leaves the channel list or divides by zero if and only if the new strips are none or more than the list holds |
| `Safety.FaultsExactly` | Gas_sensor_read_out/source/main.c:123-176 | for every list of reconfigurations, successful or not, some run from power-up with exactly those leaves the channel list or divides by zero strips if and only if after one of them the timer runs and the strips asked for last are none (in Modbus mode) or more than the last successful one listed |
| `Survival.NothingFaultsExactly` | Gas_sensor_read_out/source/main.c:339-349 | for every list of requests from power-up: no way for interrupts to fall between them leaves the channel list, divides by zero strips or samples, or converts a meaningless sample, if and only if the registers they put in force are harmless to the scheduler and give a playable wave |
| `Survival.SchedulerFaultsExactly` | Gas_sensor_read_out/source/main.c:339-349 | the scheduler half of it: registers 0, 2 and 6 in force after each granted write decide |
| `Survival.PlateFaultsExactly` | Gas_sensor_read_out/source/main.c:186-220 | the hot-plate half of it: registers 0 to 2 in force after each granted write decide |
| `Survival.PowerUpToPins` | Gas_sensor_read_out/source/main.c:339-349 | for any mix of requests and interrupts from power-up that is harmless, the pins always carry a strip of the last successful setup, which is one set in the last nonzero register 6 if the last granted write succeeded |
| `Survival.NoStripFaults` | Gas_sensor_read_out/source/Modbus_files/modbus.c:412-433 | a single accepted write of a nonzero register 6 with an empty low byte can drive the scheduler out of its list |
| `Survival.WideningFaults` | Gas_sensor_read_out/source/main.c:341-349 | so can one strip, then a refused wave form, then two strips, though the first two writes alone are harmless |
| `Survival.NoSampleFaults` | Gas_sensor_read_out/source/main.c:190-194 | a single accepted write of a frequency register above 25000 can bring the wave timer to divide by zero |
| `Readout.ReadShowsLastSweep` | Gas_sensor_read_out/source/Modbus_files/modbus.c:240-269 | end to end: after a successful granted write and any interrupts and reads, a granted 0x04 returns for each active strip the resistance of its window in the last complete sweep modulo 2^16, where that is an int, and 0 for the others |
| `Readout.ReadShowsConversions` | Gas_sensor_read_out/source/Modbus_files/modbus.c:240-269 | from conversions to reply bytes: with one conversion per trigger that resistance is the rounded quotient of the averages over the conversions of its own window and of all windows of that sweep |
| `Instrument.SlaveIsSession` | Gas_sensor_read_out/source/main.c:339-349 | interrupts do not touch the register side: it is the session of the requests |
| `HotPlateSessions.SessionSetup` | Gas_sensor_read_out/source/main.c:186-220 | after any session, whether the hot-plate setup succeeds, its number of samples, whether all its conversions are defined and whether all samples fit in 14 bits, each exactly told from the effective registers 0 to 3 |
| `HotPlateSessions.HalfDutyConvertible` | Gas_sensor_read_out/source/DAC_files/DAC_micro_hot_plate.c:56-76 | a duty cycle of 50 or more and a frequency of at most 12.5 Hz always give defined conversions |
| `Gain.GetGainConvResult` | Gas_sensor_read_out/source/drivers/fsl_lpadc.c:122-143 | in exact arithmetic the digit loops return floor(gain * 2^16), modulo 2^32 |
| `Gain.ExpandGain` | Gas_sensor_read_out/source/drivers/fsl_lpadc.c:129-134 | dividing by 1.0 / (1 << place) digit by digit gives sixteen lower digits of 0 or 1 that sum to the whole part |
| `Gain.WeightIs` | Gas_sensor_read_out/source/drivers/fsl_lpadc.c:131-133 | that divisor is the weight of the digit |
| `Gain.FinishAutoCalibration` | Gas_sensor_read_out/source/drivers/fsl_lpadc.c:838-842 | the register value is 2^33 div (2^17 - GCC), between 65536 and 131071 |
| `Gain.GainRegisterMonotone` | Gas_sensor_read_out/source/drivers/fsl_lpadc.c:838-842 | the register value rises with GCC |
| `HotPlate.TriangleShape` | Gas_sensor_read_out/source/DAC_files/DAC_micro_hot_plate.c:62-69 | the raw triangle starts at 0, rises strictly, stands at 16383 at the turn, falls strictly and stays in 0 to 16383 |
| `HotPlate.OnSizeExact` | Gas_sensor_read_out/source/DAC_files/DAC_micro_hot_plate.c:43 | the number of on samples is the one n with 100*n <= size*duty < 100*n + 100 |
| `HotPlate.TriangleDefinedExactly` | Gas_sensor_read_out/source/DAC_files/DAC_micro_hot_plate.c:62-69 | all its conversions to unsigned are defined if and only if it falls for at most one sample longer than it rises |
| `HotPlate.HalfDutySuffices` | Gas_sensor_read_out/source/DAC_files/DAC_micro_hot_plate.c:62-69 | which every duty cycle from 50 to 100 gives |
| `HotPlate.ScaledInRange` | Gas_sensor_read_out/source/DAC_files/DAC_micro_hot_plate.c:14-19 | scaling keeps all samples within 14 bits if and only if the amplitude is below 28 |
| `HotPlate.ScaledMonotone` | Gas_sensor_read_out/source/DAC_files/DAC_micro_hot_plate.c:14-19 | scaling keeps order and zero |
| `HotPlate.ScaledTriangle` | Gas_sensor_read_out/source/DAC_files/DAC_micro_hot_plate.c:56-76 | the scaled triangle rises, then falls, within 14 bits, for amplitudes below 28 |
| `WaveBuffer.Device.GenerateTriangleWave` | Gas_sensor_read_out/source/DAC_files/DAC_micro_hot_plate.c:56-76 | the loops fill exactly the scaled triangle and leave the rest of the buffer, or mark a fault exactly where a conversion has no meaning |
| `WaveBuffer.Device.GenerateSquareWave` | Gas_sensor_read_out/source/DAC_files/DAC_micro_hot_plate.c:38-51 | the loops fill exactly the scaled square wave and leave the rest of the buffer |
| `WaveBuffer.SquareNumbers` | Gas_sensor_read_out/source/DAC_files/DAC_micro_hot_plate.c:38-51 | of a scaled square wave exactly the first n samples are 163830*(A div 7) div 33, the others 0 |
| `WaveBuffer.TriangleNumbers` | Gas_sensor_read_out/source/DAC_files/DAC_micro_hot_plate.c:56-76 | of a scaled triangle sample k is 10*(16383*m div n)*(A div 7) div 33, with m = k up to n and 2*n - k after it |
| `WaveBuffer.Device.ScaleDacValues` | Gas_sensor_read_out/source/DAC_files/DAC_micro_hot_plate.c:14-19 | each sample is scaled in place |
| `WaveBuffer.Device.InitializeDacHotPlate` | Gas_sensor_read_out/source/main.c:186-220 | size first, then frequency and wave form are checked; the buffer holds the chosen wave, a square wave being high in place k if and only if 100*(k + 1) <= size*duty; playback goes on as the model says |
| `WaveBuffer.Device.DacUpdateCallback` | Gas_sensor_read_out/source/DAC_files/DAC_micro_hot_plate.c:81-86 | the callback emits the sample at the index and advances it cyclically, or marks a fault exactly where there is no sample |
| `WaveBuffer.IndexStays` | Gas_sensor_read_out/source/DAC_files/DAC_micro_hot_plate.c:81-86 | across any callbacks and playable setups nothing faults, the index stays in the buffer, and below the current size from the first callback after a setup on |
| `WaveBuffer.SetupsKeepPlace` | Gas_sensor_read_out/source/DAC_files/DAC_micro_hot_plate.c:81-86 | a setup does not move the index: playback of the new wave goes on where the old one was |
| `WaveBuffer.CallbacksAdvance` | Gas_sensor_read_out/source/DAC_files/DAC_micro_hot_plate.c:81-86 | k callbacks move the index on by k modulo the size, also from an index that a shorter wave left too high |
| `WaveBuffer.PlaybackFaultsExactly` | Gas_sensor_read_out/source/DAC_files/DAC_micro_hot_plate.c:81-86 | for every list of setups some mix of them with callbacks faults if and only if one that is carried through has an undefined conversion, or one leaves no sample while the wave timer runs |
| `WaveBuffer.EachSampleOnce` | Gas_sensor_read_out/source/DAC_files/DAC_micro_hot_plate.c:81-86 | every `size` consecutive callbacks from there emit every sample exactly once in cyclic order |
| `WaveBuffer.SampleCountOf` | Gas_sensor_read_out/source/main.c:191-194 | register value r asks for 25000 div r samples, at most 12500, and at least one exactly for r up to 25000 |

## Left out

- The sine generator: it rests on the library function `sin`; `WaveBuffer.Device.GenerateSineWave` takes the converted values as given.
- IEEE rounding of floats: frequencies, slopes, scaling, resistance and gain are exact reals.  For the gain every operation is exact in binary floating point as well, up to the first division.
- Interleavings inside a reconfiguration, or between a parameter update and the reinitialisation: steps are atomic.
- Transmission hardware, interrupt controller, clocks, pins, voltage reference and power multiplexer: input is a byte sequence, output a list of buffers.
- The console mode of `main.c` (`strtok`, `atoi`, `atof`, the 256-byte line buffer): library behaviour; only its effect of a tick without strips is modelled.
- `Modbus_DataErrorPresent` is never called, `SetExcitationVoltage` is a single formula, `DisableMux` and `ResetAllPeripherals` only write registers.
- The calibration variant with a signed gain field (a compile-time feature of the converter) and the second converter channel.
- ModbusDevice.Device.HandleRequest: requires a 0x10 frame to be as long as its byte count says, which the receive loop guarantees for its only call.
- ModbusDevice.Device.Receive: a blocking read that waits for ever is modelled as a read that fails with nothing after it.
- Scheduler.Device.Timer: after a fault nothing is claimed, because what C does from there on is undefined.
- Carryover.FirstSweepFrom: requires room for one more window in the 32-bit sums; close below 2^32 a total can wrap back to a faithful report. `Overflow.LaterMeasurement` shows that room for the first sixty-one measurements from power-up.
- Overflow.FirstSweepConvertsExactly: requires room for one more sweep in the 32-bit sums, which `Overflow.LaterMeasurement` shows for the first sixty-one measurements from power-up.
- Windows.WindowComposition: assumes one conversion of each converter per trigger; without it only `Windows.SampleConservation` is claimed.
