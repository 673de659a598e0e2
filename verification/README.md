# Verification of the LoRa sensor node firmware

A Dafny model of the firmware's protocol stack, timebase, sleep code, radio driver and main loop, with
proofs. `dafny verify dfyconfig.toml` checks all of it.

| Files | Subject |
|---|---|
| `Words`, `Wrappers`, `Gf2` | machine integers and their binary digits; vectors and polynomials over GF(2) |
| `Crc16`, `Crc16Register`, `Crc16Remainder` | the CRC loop, its register as a linear and injective map, the CRC as a polynomial remainder |
| `Crc16Check` | the published check value, computed |
| `Crc16Order`, `Crc16Detection` | the order of x modulo the generator; which errors the CRC detects, and where detection stops |
| `NodePacket`, `NodePacketProofs`, `NodeResponse` | the wire codec as a bijection that rejects corruption; DATA and ERROR construction |
| `NodeState`, `NodeStateProofs` | the transaction machine, its trace grammar, its 32-bit clock against true time |
| `Network` | node, echoing gateway and a channel that loses, duplicates, reorders and corrupts |
| `AppTime`, `Deadline` | the millisecond accumulator, and the ACK deadline in counter ticks |
| `NodePower`, `NodePowerProofs`, `NodePowerRuns`, `NodePowerReach` | sleep as an interleaving of thread, interrupt handler, RTC and other interrupts |
| `Sx1278`, `Sx1278Driver` | a model of the radio chip, and the driver with its mode mirror |
| `AppTrace`, `LoraApp` | the application loop, and the language of its traces |

Registers of the CRC are sequences of sixteen booleans and bytes are integers below 256; every wrap and
truncation of the source's integers is written out. Stateful modules are classes whose methods are
proved against functions on values, and lemmas about those functions carry the theorems. Code shared with
an interrupt is a transition system instead: one step is one register access or one flag test, and
the invariant holds after every step of every interleaving.

## What the hardware is assumed to do

- An interrupt handler runs only when its interrupt is pending, enabled and PRIMASK is clear, and
  to its end before the thread goes on. WFI ends on any enabled pending interrupt, masked or not.
- A write of COUNT, COMP or CTRL makes SYNCBUSY set until the RTC has taken it over, which may happen
  at any later time or never. The counter may tick while an enable or a disable is still on its way.
- The RTC raises its flag when COUNT reaches COMP; the interrupt line is the flag gated by its enable.
- The SX1278 takes a new LongRangeMode bit only in Sleep mode, goes to Standby by itself when a
  transmission ends, and comes out of reset with RegOpMode 0x09. Reads and writes of RegOpMode
  through the driver succeed; the payload length may read back wrong; the transfers of the sleep
  code may fail at any point, and the chip may ignore the write among them.
- Sensor results, start-up checks and the moment of every other event are arbitrary.

## Results that qualify what the source says

- The ACK deadline of 1000 ms is missed when a whole 2^32 ms pass between two events of the waiting state.
  `NodeStateProofs.DeadlineExactly` gives the exact set of elapsed times for which the machine
  agrees with true time, and `UnpacedWaitNeverEnds` a wait that never ends. `DeadlineWins` and
  `WaitingIsBounded` show that events at most 2^32 - 1000 ms apart suffice.
- An ACK 65536 cycles old is accepted (`Network.EchoAcceptedIff`, with a run in `StaleAckAccepted`).
- A counter wrap that no poll sees is lost, and the time shown is right again only after 375 of them
  (`AppTime.RightTimeIff`, `OneMissedWrap`).
- The distance of 4 between valid frames holds up to 4095 bytes and no further
  (`Crc16Detection.DistanceTwoBeyond`); frames are at most 13 bytes.
- The local build failure that the repository's README describes as ending a cycle without a
  transmission cannot happen: some frame always fits (`LoraApp.App.BuildFrame`).
- The ACK's ID test never decides anything for echoed ACKs (`Network.IdTestIsRedundant`).
- A transmission of one byte sends whatever the FIFO held before, and a received packet of one
  byte is read as zero (`Sx1278Driver.OnAirFrameIff`, `FetchedIff`, with an input for each). The node
  sends no such frame and rejects what it reads.
- A transmission reported as failed may have been sent: the chip can finish between the last look at
  its line and the reset (`Sx1278Driver.TimedOutMayHaveSent`). `Transmit` promises at most one
  copy, not none.

## Model

| member | source | states |
|---|---|---|
| Crc16.CalculateCcittFalse | src/protocol/crc16.c:12-46 | the nested loops leave the specified register for every buffer; no bytes give 0xFFFF; a null buffer with a length is the only refusal |
| Crc16Check.CheckValue | src/protocol/crc16.c:8-46 | the CRC of "123456789" is 0x29B1, which fixes start, generator and bit order |
| Crc16.CrcConcat | src/protocol/crc16.c:24-42 | running the loop over a concatenation is running it over the second part from where the first ended |
| Crc16Register.BytesAreBits | src/protocol/crc16.c:28-41 | the byte loop is a bit-serial register fed the message bits in order, at any alignment |
| Crc16Register.FeedBitsLinear | src/protocol/crc16.c:30-41 | the register is linear over GF(2) in start value and message together |
| Crc16Register.StepInjective | src/protocol/crc16.c:32-40 | one shift never merges two registers |
| Crc16Remainder.CrcIsRemainder | src/protocol/crc16.c:16-44 | from any start a register is what the loops leave if and only if it is a remainder of the message polynomial, start added, by the generator |
| Crc16Remainder.CrcOfMessage | src/protocol/crc16.c:8-44 | a register is the CRC of the message if and only if it is that remainder with 0xFFFF as the start and 0x11021 as the generator |
| Crc16Remainder.DivisionUnique | src/protocol/crc16.c:8-9 | quotient and remainder of that division are unique |
| Crc16Remainder.ZeroResidue | src/protocol/node_packet.c:213-226 | comparing the trailing big-endian CRC is the same test as a zero register over the whole frame |
| Crc16Remainder.TrailerSeals | src/protocol/node_packet.c:133-141 | data followed by its own CRC, high byte first, passes that test |
| Crc16Order.OrderOfX | src/protocol/crc16.c:32-40 | shifts return a lone bit to its place exactly at multiples of 32767 |
| Crc16Detection.UndetectedIffZeroSyndrome | src/protocol/node_packet.c:213-226 | whether a corruption is noticed depends only on its error pattern: exactly when the pattern alone leaves a nonzero register |
| Crc16Detection.FeedBitsParity | src/protocol/crc16.c:28-41 | register parity is start parity plus message parity |
| Crc16Detection.SealedIsEven | src/protocol/node_packet.c:133-147 | a string ending in its CRC has an even number of one bits |
| Crc16Detection.OddErrorsDetected | src/protocol/node_packet.c:213-226 | any odd number of flipped bits is detected, at any length |
| Crc16Detection.TwoBitSyndrome | src/protocol/crc16.c:24-42 | two flipped bits escape exactly when their distance is a multiple of 32767 |
| Crc16Detection.HammingDistanceFour | src/protocol/node_packet.c:213-226 | different sealed strings of one length up to 4095 bytes differ in at least four bits |
| Crc16Detection.DistanceTwoBeyond | src/protocol/node_packet.c:213-226 | from 4096 bytes on every sealed string has a sealed neighbour two bits away |
| Crc16Detection.BurstDetected | src/protocol/node_packet.c:213-226 | sealed strings that differ only inside sixteen consecutive bits, aligned or not, are equal, at any length |
| NodePacket.ValidIffContract | src/protocol/node_packet.c:52-86 | the messages that are valid, in numbers: types 1 to 4 with their directions, addresses, lengths and codes |
| NodePacket.FrameLayout | src/protocol/node_packet.c:118-141 | which byte of a frame is what, Seq and CRC with their high bytes first |
| NodePacket.Encode | src/protocol/node_packet.c:88-150 | encodes exactly the messages of the contract that fit, lays the bytes out so, and leaves the output alone on failure |
| NodePacket.AcceptedIff | src/protocol/node_packet.c:163-226 | the byte strings that are accepted, in numbers: four shapes, each with the right trailing CRC; the fields are their bytes |
| NodePacket.Decode | src/protocol/node_packet.c:152-231 | the checks in their order accept exactly those strings and return those fields, null included |
| NodePacketProofs.DecodeEncode | src/protocol/node_packet.c:88-231 | decoding an encoded message gives it back, payload past its length zeroed |
| NodePacketProofs.EncodeDecode | src/protocol/node_packet.c:152-231 | encoding a decoded message reproduces the input bytes |
| NodePacketProofs.AcceptedIffEncoded | src/protocol/node_packet.c:52-231 | a byte string is accepted if and only if it is the frame of a valid message, and then it has 9, 10 or 13 bytes |
| NodePacketProofs.FrameInjective | src/protocol/node_packet.c:88-150 | equal frames come from messages equal up to unused payload |
| NodePacketProofs.FrameIsEven | src/protocol/node_packet.c:133-147 | every frame has an even number of one bits |
| NodePacketProofs.AcceptedDistance | src/protocol/node_packet.c:177-226 | two accepted strings of one length differ in at least four bits |
| NodePacketProofs.CorruptionRejected | src/protocol/node_packet.c:177-226 | one, two, three or any odd number of flipped bits, or a burst of sixteen, makes Decode reject an encoded frame |
| NodePacketProofs.AckBytes | src/protocol/node_packet.c:72-75 | the nine bytes that are the ACK of an address, ID and Seq |
| NodeResponse.BuildError | src/app/node_response.c:33-56 | writes the ERROR frame of the code exactly when that message is valid and fits |
| NodeResponse.Build | src/app/node_response.c:78-133 | what the gateway decodes from the output: the signed temperature and the humidity of a good reading from 13 bytes, error 4 for it from 10, the number of a sensor fault from 10; otherwise the output is untouched |
| NodeResponse.OutcomesAreValid | src/app/node_response.c:58-133 | every message the builder makes for an acceptable request is valid, and every mapped code is known |
| NodeResponse.DataEndToEnd | src/app/node_response.c:108-125 | decoding the DATA frame returns address, ID, Seq, every signed temperature and every humidity |
| NodeResponse.ErrorEndToEnd | src/app/node_response.c:98-106 | decoding the ERROR frame returns address, ID, Seq and the code |
| NodeState.Context.Initialize | src/app/node_state.c:137-153 | a valid address starts a fresh context; any other leaves it unchanged |
| NodeState.Context.CompleteTransaction | src/app/node_state.c:14-29 | ends the cycle with both counters advanced and wrapped |
| NodeState.Context.HandleWaitInterval | src/app/node_state.c:31-56 | is the specified step in WAIT_INTERVAL |
| NodeState.Context.HandleWaitTxResult | src/app/node_state.c:58-78 | is the specified step in WAIT_TX_RESULT |
| NodeState.Context.HandleWaitAck | src/app/node_state.c:80-135 | is the specified step in WAIT_ACK, deadline first |
| NodeState.Context.HandleEvent | src/app/node_state.c:155-186 | is the specified step in every state |
| NodeStateProofs.TraceGrammar | src/app/node_state.c:14-78 | over every event sequence the actions are (READ_SENSOR terminal)*, the k-th request numbered k modulo the widths, one open request exactly outside WAIT_INTERVAL, pending numbers equal to the counters while open and zero otherwise |
| NodeStateProofs.IdIsLowByteOfSeq | src/app/node_state.c:20-24 | the ID is the low byte of Seq in every reachable context |
| NodeStateProofs.OpensCycleIff | src/app/node_state.c:35-55 | at rest a wake opens a cycle, a timer tick does exactly from 5000 ms on, and anything else is ignored as unexpected |
| NodeStateProofs.ResultIff | src/app/node_state.c:62-77 | while a result is awaited only the result counts |
| NodeStateProofs.EndOfCycle | src/app/node_state.c:19-28 | every end of a cycle advances both numbers, clears what was pending and starts the interval at its own tick |
| NodeStateProofs.IgnoredBecause | src/app/node_state.c:96-130 | before the deadline each ignore reason is given exactly for what it says about the frame, and nothing changes |
| NodeStateProofs.OnlyTheAckCompletes | src/app/node_state.c:107-134 | a waiting transaction completes if and only if the one byte string that encodes its ACK arrives before the deadline |
| NodeStateProofs.StepRefines | src/app/node_state.c:42-48 | one step on the 32-bit clock is the step on true time while elapsed times fit |
| NodeStateProofs.RunRefines | src/app/node_state.c:42-48 | so is a whole run whose waiting events are at most 2^32 - 1000 ms apart |
| NodeStateProofs.DeadlineExactly | src/app/node_state.c:85-94 | a waiting event, however late, is handled as true time demands if and only if the elapsed time is below the deadline or its residue is not |
| NodeStateProofs.DeadlineWins | src/app/node_state.c:85-130 | in such a run the first event at or past 1000 ms ends the cycle whatever its type, and no other event moves the deadline |
| NodeStateProofs.WaitingIsBounded | src/app/node_state.c:85-130 | on the 32-bit clock, events each later than the one before by at most 2^32 - 1000 ms end the wait in fewer than a thousand steps |
| NodeStateProofs.UnpacedWaitNeverEnds | src/app/node_state.c:85-99 | without that pace the wait need not end: any number of timer ticks, each a whole wrap of the clock later, leave the machine as it was |
| Network.ReachedIsGood | README.md:18-25 | numbering of the node, of every frame in the air and of every report heard survives every interleaving |
| Network.AcceptedIsIntact | src/protocol/node_packet.c:177-226 | whatever is accepted from the channel, noise included, is exactly what was sent |
| Network.CompletionIsAcknowledged | src/app/node_state.c:107-134 | a completed transaction was answered with an echo of a report the gateway accepted |
| Network.AckSafety | README.md:18-19 | from initialization, over a lossy, duplicating, reordering, corrupting channel: the report acknowledged is of this very cycle unless Seq has wrapped since |
| Network.EchoAcceptedIff | src/app/node_state.c:107-134 | an echo heard intact and in time completes the wait if and only if its cycle agrees modulo 65536 |
| Network.StaleAckAccepted | src/app/node_state.c:20-24 | a run from initialization in which, 65536 cycles later, the first cycle's echo completes a transaction the gateway never heard |
| Network.IdTestIsRedundant | src/app/node_state.c:125-126 | an echo with the right Seq has the right ID |
| Network.GatewayEchoes | README.md:128-133 | an undisturbed uplink reaches the gateway and its ACK is in the air |
| Network.EchoCompletes | README.md:128-133 | that ACK, heard before the deadline, completes the transaction |
| AppTime.PrescaledClock | src/app/app_time.h:75 | 46875 counts a second, with nothing lost by the division |
| AppTime.CarryRemainder | src/app/app_time.h:78-84 | carrying the remainder makes the quotients of the parts add up to the quotient of the sum |
| AppTime.NoOverflow | src/app/app_time.h:77-83 | neither the 64-bit product nor the 32-bit quotient is ever truncated |
| AppTime.PollIsExact | src/app/app_time.h:73-86 | a poll after any gap lands on the exact clock at the gap modulo one counter wrap |
| AppTime.NoDrift | src/app/app_time.h:73-86 | after any polls once per wrap the state is floor(1000 N / 46875) mod 2^32 and (1000 N) mod 46875 of the total count |
| AppTime.ScheduleIndependent | src/app/app_time.h:73-86 | polling schedules of equal total end in the same state |
| AppTime.PollsAreExact | src/app/app_time.h:73-86 | after any polls at all the state is that of the exact clock at the counts the polls have seen |
| AppTime.RightTimeIff | src/app/app_time.h:80-81 | the milliseconds are right if and only if the counter wraps missed so far are a multiple of 375 |
| AppTime.LatePollLosesWraps | src/app/app_time.h:80-81 | a first late poll leaves out the wraps it missed, and shows the right time if and only if they are a multiple of 375 |
| AppTime.OneMissedWrap | src/app/app_time.h:80-81 | a first poll exactly one wrap late shows time 0 |
| AppTime.Timebase.Initialize | src/app/app_time.h:26-71 | five waits of at most a million looks each, all of which must end well; then the count starts at zero from any counter value, and otherwise the statics stay |
| AppTime.Timebase.NowMs | src/app/app_time.h:73-86 | however much later it is called, the static state follows the exact clock of the counts seen, and the result is the true time if and only if the wraps missed are a multiple of 375 |
| Deadline.RealDeadline | src/app/node_state.c:85-94 | an accepted ACK came fewer than 46875 counts after the TX sample, a timeout at least 46829, across wraps of both clocks |
| Deadline.BoundsAreTight | src/app/node_state.c:85-94 | a waiting machine accepts an ACK 46874 counts after its sample, and another times out after 46829 |
| NodePowerProofs.StopPlace | src/app/node_power.c:39-58 | the stop routine keeps every access synchronized and, on success, leaves nothing running, flagged or pending |
| NodePowerProofs.ArmPlace | src/app/node_power.c:182-203 | arming keeps every access synchronized and ends armed with the match ahead, or with the latch closed |
| NodePowerProofs.TickArmed | src/app/node_power.c:30-37 | a tick keeps the match ahead at the right distance or puts it on its way to the flag |
| NodePowerProofs.IsrKeeps | src/app/node_power.c:30-37 | the interrupt handler, step by step, loses no match and invents none |
| NodePowerRuns.RunKeeps | src/app/node_power.c:133-228 | the invariant holds after every interleaving |
| NodePowerRuns.RegisterDiscipline | src/app/node_power.c:41-48 | COUNT, COMP and CTRL are never touched while an earlier write is being synchronized, on success, timeout and cleanup paths alike |
| NodePowerRuns.NoEarlyWake | src/app/node_power.c:205-223 | the loop ends, and sleep returns true, only after a match of this call that came exactly the interval's ticks after COUNT was zeroed |
| NodePowerRuns.NoLostWakeup | src/app/node_power.c:208-219 | a thread in WFI with the match behind it is released; with the match ahead the counter runs towards it |
| NodePowerRuns.WakesOnTime | src/app/node_power.c:206-223 | in WFI the match comes after exactly the ticks that are left, and releases it |
| NodePowerRuns.WakeProgress | src/app/node_power.c:206-223 | after the match every processor move brings the end of the loop nearer; a tick puts it off by four moves at most, and nothing else puts it off |
| NodePowerRuns.WakeIsPrompt | src/app/node_power.c:206-223 | after the match fourteen processor moves, and four more for each tick among them, leave the loop |
| NodePowerRuns.MasksRestored | src/app/node_power.c:205-227 | PRIMASK and SLEEPDEEP are the caller's on every return |
| NodePowerRuns.WaitsInStandby | src/app/node_power.c:215-219 | SLEEPDEEP is set whenever the thread waits in WFI |
| NodePowerRuns.StoppedOnReturn | src/app/node_power.c:198-227 | no call returns with an RTC set up since the stop routine was last entered, and a successful one leaves it stopped, with no flag, enable or pending interrupt |
| NodePowerRuns.RefusedIff | src/app/node_power.c:160-171 | exactly a closed latch, interval 0 or over 4194303999 ms, a disabled interrupt or masked interrupts refuse a sleep, before anything is written |
| NodePowerRuns.PreparationIff | src/app/node_power.c:173-177 | a failed preparation ends the call with false and the latch closed, the RTC untouched; a successful one goes on |
| NodePowerRuns.InitializationRefused | src/app/node_power.c:137-145 | a disabled interrupt or a wrong mode ends initialization with false and the latch closed |
| NodePowerRuns.WaitStarts | src/app/node_power.c:19 | every wait for the synchronization starts with a million attempts |
| NodePowerRuns.WaitTimesOut | src/app/node_power.c:20-27 | a wait on a busy RTC polls as often as it has attempts, and then fails |
| NodePowerRuns.RefusedUntilInitialized | src/app/node_power.c:160-165 | with the latch closed every sleep is refused and the RTC settings stay as they are, until initialization is called |
| NodePowerRuns.FailureLatches | src/app/node_power.c:173-227 | a call that fails after its argument checks closes the latch |
| NodePowerRuns.TicksAreLeast | src/app/node_power.c:156 | the tick count is the least that lasts the interval |
| NodePowerRuns.TicksRefused | src/app/node_power.c:156-165 | exactly interval 0 gives no ticks and exactly intervals over 4194303999 ms exceed COMP, with no 64-bit overflow |
| NodePowerReach.StopSucceeds | src/app/node_power.c:39-58 | the stop routine can always finish once synchronization does |
| NodePowerReach.SleepCanSucceed | src/app/node_power.c:154-228 | every reachable call with acceptable arguments has a run to a true return at the exact tick |
| NodePowerReach.InitializeCanSucceed | src/app/node_power.c:133-152 | from power-on with the interrupt enabled, whatever the RTC holds, initialization has a run to a true return with the latch open |
| NodePowerReach.FirstSleepCanSucceed | src/app/node_power.c:133-228 | from power-on any acceptable interval can be slept through |
| Sx1278.FifoRoundTrip | src/drivers/sx1278/SX1278.c:42-55 | bytes written in a burst are read back from the same address, wherever the FIFO wraps |
| Sx1278.Chip.BurstWriteFifo | src/drivers/sx1278/SX1278.c:42-55 | the burst loop writes the whole buffer, and nothing at all for one byte or none |
| Sx1278.Chip.BurstReadFifo | src/drivers/sx1278/SX1278.c:27-40 | the burst loop reads the FIFO into the head of the buffer, and nothing at all for one byte or none |
| Sx1278Driver.OnAirFrameIff | src/drivers/sx1278/SX1278.c:42-46 | a frame goes on the air as given if and only if it is not a single byte other than what the FIFO already holds |
| Sx1278Driver.OneByteNotSent | src/drivers/sx1278/SX1278.c:42-46 | a single byte 1 over an empty FIFO is sent as 0 |
| Sx1278Driver.FetchedIff | src/drivers/sx1278/SX1278.c:27-31 | a packet is fetched as received if and only if it is not a single byte other than zero |
| Sx1278Driver.OneByteNotFetched | src/drivers/sx1278/SX1278.c:27-31 | a received single byte 1 is read as 0 |
| Sx1278Driver.TimedOutMayHaveSent | src/drivers/sx1278/SX1278.c:238-242 | a timed-out transmission can have sent the frame, and can have sent nothing |
| Sx1278Driver.ModeOfWithMode | src/drivers/sx1278/SX1278.c:120-121 | replacing the mode bits keeps LongRangeMode, and the chip takes the value as written |
| Sx1278Driver.Driver.Standby | src/drivers/sx1278/SX1278.c:116-123 | only the mode bits change, to Standby, and the status with them |
| Sx1278Driver.Driver.Sleep | src/drivers/sx1278/SX1278.c:125-129 | only the mode bits change, to Sleep, and the status with them |
| Sx1278Driver.Driver.Config | src/drivers/sx1278/SX1278.c:57-114 | from any mode, FSK included, to LoRa Standby by way of Sleep and 0x88, with the status in step, after 15 ms |
| Sx1278Driver.Driver.Initialize | src/drivers/sx1278/SX1278.c:247-259 | establishes the mirror from any chip state |
| Sx1278Driver.Driver.EntryTx | src/drivers/sx1278/SX1278.c:195-224 | ready to send exactly if the length reads back right within the timeout, and otherwise recovered by reset into LoRa Standby |
| Sx1278Driver.Driver.AwaitSent | src/drivers/sx1278/SX1278.c:230-244 | true exactly if the line is seen up within the timeout, at the first such look, one look a millisecond; timeout 0 means 2^32 |
| Sx1278Driver.Driver.TxPacket | src/drivers/sx1278/SX1278.c:226-245 | 0x8B is written, and the line decides: on success the frame is on the air once, on failure at most once |
| Sx1278Driver.Driver.Transmit | src/drivers/sx1278/SX1278.c:261-267 | the whole course of a transmission: every mode written, every look, the outcome they call for and the time it takes |
| Sx1278Driver.Driver.Receive | src/drivers/sx1278/SX1278.c:139-170 | Standby, then continuous reception with the line down; the mirror holds afterwards if and only if the chip was in LoRa mode |
| Sx1278Driver.Driver.Available | src/drivers/sx1278/SX1278.c:172-193 | fetches the packet of the chip when its line is up, except that a packet of one byte is left zero, and otherwise changes nothing |
| Sx1278Driver.Driver.Read | src/drivers/sx1278/SX1278.c:277-284 | hands over the fetched bytes, terminated, and forgets them |
| Sx1278Driver.RadioRegister | src/app/node_power.c:86-104 | a completed read is right; a write may or may not have been taken by the chip |
| Sx1278Driver.SleepRadio | src/app/node_power.c:106-131 | true exactly if all three transfers complete and the LoRa chip has taken Sleep mode; failure leaves the status, and the mirror then holds if and only if the mode was left alone |
| Sx1278Driver.Perform | src/drivers/sx1278/SX1278.c:116-284 | from initialization through any operations the status mirrors the chip, unless a sleep has failed |
| AppTrace.TransmissionsAreSeparated | src/app/lora_app.c:292-317 | between any two transmissions lies a sleep that returned true, of 5000 ms in any run |
| AppTrace.FailedSleepIsLast | src/app/lora_app.c:305-310 | nothing follows a failed sleep |
| AppTrace.OnePerCycle | src/app/lora_app.c:195-250 | every cycle transmits exactly once |
| AppTrace.TransmissionIsNumbered | src/app/lora_app.c:195-202 | the k-th transmission decodes to its sensor reading, or the fault in it, from this node with ID k mod 256 and Seq k mod 65536 |
| AppTrace.AcceptedIsForTheLastUplink | src/app/lora_app.c:437-443 | an accepted ACK is the frame for the transmission just before it, fewer than 46875 counts old as the counter shows it |
| AppTrace.WaitOutcome | src/app/lora_app.c:408-443 | while waiting the cycle times out exactly from 1000 ms on, and before that completes exactly on the bytes of its ACK |
| LoraApp.App.StartReceiver | src/app/lora_app.c:142-147 | the flag is set with the chip in continuous reception for 64 bytes |
| LoraApp.App.NotifyTxResult | src/app/lora_app.c:170-193 | the machine follows the transmission's result; success starts the wait at the sample, failure the interval at a fresh one |
| LoraApp.App.BuildFrame | src/app/lora_app.c:197-221 | the build for an open cycle never fails, and its frame reports this reading with the cycle's numbers |
| LoraApp.App.Send | src/app/lora_app.c:226-231 | the frame is transmitted with a timeout of 3000 ms, the course of which is the driver's, and counted once |
| LoraApp.App.Report | src/app/lora_app.c:209-229 | one reading of the sensor, and one transmission that reports it |
| LoraApp.App.BuildAndTransmit | src/app/lora_app.c:195-250 | exactly one reading and one transmission; the wait starts at the first sample after it, and the receiver runs in the same turn if it succeeded |
| LoraApp.App.HandleAction | src/app/lora_app.c:252-268 | a request is served at once; a terminal action only restarts the interval, at a fresh sample |
| LoraApp.App.IdleTick | src/app/lora_app.c:270-290 | while waiting, a timeout from 1000 ms on and otherwise nothing but a delay of 1 ms; before the wait only the delay |
| LoraApp.App.PowerSleep | src/app/node_power.c:154-228 | true exactly if the arguments are acceptable, the peripherals drained, the radio asleep and the RTC woke; the latch closes on any failure after the arguments |
| LoraApp.App.SleepInterval | src/app/lora_app.c:292-317 | 5000 ms of sleep and one transmission with the receiver armed, or a halt and nothing else |
| LoraApp.App.Initialize | src/app/lora_app.c:319-375 | ready exactly if the timer and the power code started, the RTC interrupt is enabled, the radio answers 0x12 and the address is a node's; then it is in WAIT_INTERVAL with the invariant established |
| LoraApp.App.AwaitAck | src/app/lora_app.c:408-435 | a waiting turn times out at its first sample or listens, and adds exactly what its samples and the bytes heard call for |
| LoraApp.App.CheckReceiver | src/app/lora_app.c:430-466 | the bytes fetched when the line was up, and none otherwise, go to the machine: the cycle's ACK in time is accepted, from 1000 ms on it times out, anything else changes nothing |
| LoraApp.App.HandOver | src/app/lora_app.c:437-466 | the same for bytes already fetched, at a fresh sample, with the receiver then to be started again |
| LoraApp.App.Tasks | src/app/lora_app.c:377-467 | a turn keeps the invariant and does exactly what its state and what it hears call for; WAIT_TX_RESULT is never seen between turns; a halted node only disables its three interrupts, after which no initialization succeeds |
| LoraApp.App.Run | src/main.c:13-22 | for any number of turns the trace is in the language, the antenna has sent and the sensor has given exactly what the trace says, and the receiver flag implies RX mode |

## Left out

- NodePower: written as a transition system and not as a class with loops, because interrupts act between any two accesses; stack and call frames are not modelled.
- NodePower: calls from handler mode and with a null radio, which the source refuses, are outside the moves.
- NodePower: draining the UART and preparing the radio are one step that works or fails; the radio part is `Sx1278Driver.SleepRadio`.
- LoraApp.App.PowerSleep: the RTC part of sleep works or fails here; what happens inside is `NodePowerRuns`.
- NodeState.Context.HandleEvent: null arguments and a state outside the three, which the source refuses, cannot be expressed.
- NodePacket.Encode: null message and output pointers are excluded by the types.
- AppTime.Timebase.Initialize: each wait ends or times out; the register values written between the waits, and what a failed start leaves in the counter, are not followed. The clock is not read again before a start succeeds.
- LoraApp.App.Initialize: the RTC part works or fails here, its inside being `NodePowerReach.InitializeCanSucceed` and `NodePowerRuns`; the DHT11 start-up shows only in the sensor's results.
- LoraApp.App.IdleTick: the call in WAIT_INTERVAL, which the main loop never makes, is not covered.
- LoraApp.App.Tasks: the Standby of a halted node after it has disabled its interrupts.
- Network.AcceptedIsIntact: a corruption that turns one valid frame into another outside the patterns the CRC is proved to detect, and noise that happens to decode as this node's uplink or ACK, are not in the channel.
- Network: one node is followed, and its resets, which restart its numbering, are left out.
- Sx1278Driver.Driver.Initialize: pin set-up and the modem parameters it stores.
- Sx1278Driver.Driver.Config: frequency, power, spreading factor and the other modem parameters are constants without an invariant; interrupt masks and RSSI are left out.
- Sx1278Driver.Driver.Available: the packet already in the FIFO is not overwritten by the next one while it is read.
- DHT11 pulse timing, its checksum and the rounding of its values: any sensor result is allowed.
- UART logging: appears only as time passing between samples.
- Generated start-up code, pin and clock configuration, and the peripheral libraries beyond the behaviour assumed above.
