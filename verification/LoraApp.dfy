/** The application loop of the node: sleep, report, wait for the acknowledgement. */
module LoraApp {
  import opened Wrappers
  import opened Words
  import opened NodePacket
  import opened NodeResponse
  import opened NodeState
  import opened NodeStateProofs
  import opened AppTime
  import opened AppTrace
  import opened Sx1278
  import opened Sx1278Driver
  import P = NodePower
  import R = NodePowerRuns

  const TX_TIMEOUT_MS: uint32 := 3000
  const IDLE_DELAY_MS: nat := 1
  const EXPECTED_VERSION: uint8 := 0x12
  const RX_LENGTH: uint8 := 64

  /** What a turn that waits for the ACK saw: `first` is its sample for the deadline. */
  datatype Turn =
    | TooLate(first: Sample)
    | Listened(first: Sample, listening: Regs, chip: Regs, heard: seq<uint8>, at: Sample)

  /** What is fetched from the chip when its line is up. */
  function BytesOf(chip: Regs, size: uint8): seq<uint8> {
    if Dio0(chip) then Fetched(chip, size) else []
  }

  /** The samples of a turn come after the transmission, and only a turn in time listens. */
  predicate InOrder(tx: Sample, turn: Turn) {
    && NotAfter(tx, turn.first)
    && (turn.TooLate? <==> MsAt(turn.first.seen) - MsAt(tx.seen) >= 1000)
    && (turn.Listened? ==> NotAfter(turn.first, turn.at))
  }

  function EndedBy(address: uint8, cycle: nat, tx: Sample, turn: Turn): seq<AppEvent>
    requires IsNodeAddress(address) && InOrder(tx, turn)
  {
    match turn
    case TooLate(first) => Ended(address, cycle, [], tx, first)
    case Listened(_, _, _, heard, at) => Ended(address, cycle, heard, tx, at)
  }

  class App {
    const nodeAddress: uint8
    const context: Context
    const clock: Timebase
    const radio: Driver
    var loraReady: bool
    var receiverStarted: bool
    var powerReady: bool
    /** The interrupt enables that a halted node clears. */
    var rtcIrqEnabled: bool
    var spiIrqEnabled: bool
    var uartIrqEnabled: bool
    /** Every reading the sensor has given. */
    var readings: seq<SensorResult>
    /** What has happened since initialization, and what was on the air and read before it. */
    ghost var trace: seq<AppEvent>
    ghost var airBefore: seq<seq<uint8>>
    ghost var readBefore: seq<SensorResult>
    /** The count sampled at the end of the last transmission, and the wraps missed until then. */
    ghost var txCounts: nat
    ghost var txMissed: nat
    /** How often the clock had been sampled when the last transmission ended, and with that sample. */
    ghost var sentPolls: nat
    ghost var txPolls: nat

    ghost function Objects(): set<object> {
      {this, context, clock, radio, radio.chip, radio.rxBuffer}
    }

    ghost function Phase(): Phase
      reads this
    {
      PhaseOf(nodeAddress, trace)
    }

    ghost function Air(): seq<seq<uint8>>
      reads this
    {
      airBefore + AirOf(trace)
    }

    /** The end of the last transmission, and now, as the timebase has them. */
    ghost function Tx(): Sample
      reads this
    {
      Sample(txCounts, txMissed)
    }

    ghost function Now(): Sample
      reads this, clock
    {
      Sample(clock.seen, clock.missed)
    }

    /** Every reading has been reported, and nothing else has. */
    ghost predicate Sensed()
      reads this
    {
      readings == readBefore + ReadingsOf(trace)
    }

    /** The receiver is believed to run only while the chip is in continuous reception. */
    ghost predicate Sound()
      reads Objects()
    {
      && radio.Valid() && clock.Valid()
      && (receiverStarted ==> radio.Mirror() && radio.status == RxStatus && radio.readBytes == 0)
      && radio.chip.regs.onAir == Air()
    }

    /** Everything else a node that has not halted keeps. */
    ghost predicate Live()
      reads Objects()
    {
      && IsNodeAddress(nodeAddress) && context.nodeAddress == nodeAddress
      && Sensed() && radio.Mirror()
      && Tracks(context.Value(), Phase())
    }

    ghost predicate InTime()
      reads this, context, clock
    {
      Timed(context.Value(), txCounts, clock.seen) && txMissed <= clock.missed
    }

    /** What holds between two turns of the main loop. */
    ghost predicate Inv()
      reads Objects()
    {
      && Sound() && Sensed()
      && Phase() != Broken
      && (loraReady ==> Live() && InTime() && context.state != WaitTxResult)
    }

    constructor (nodeAddress: uint8, radio: Driver)
      requires radio.Valid()
      ensures Inv() && !loraReady
      ensures this.radio == radio && this.nodeAddress == nodeAddress
      ensures fresh(context) && fresh(clock)
    {
      this.nodeAddress := nodeAddress;
      this.radio := radio;
      context := new Context();
      clock := new Timebase(0);
      loraReady, receiverStarted, powerReady := false, false, false;
      rtcIrqEnabled, spiIrqEnabled, uartIrqEnabled := true, true, true;
      trace, readings, readBefore := [], [], [];
      airBefore := radio.chip.regs.onAir;
      txCounts, txMissed, sentPolls, txPolls := 0, 0, 0, 0;
    }

    ghost method Record(e: AppEvent)
      modifies this`trace
      ensures trace == old(trace) + [e]
      ensures Phase() == Next(nodeAddress, old(Phase()), e)
      ensures Air() == old(Air()) + (if e.Transmitted? && e.aired then [e.frame] else [])
      ensures ReadingsOf(trace) == ReadingsOf(old(trace)) + (if e.Transmitted? then [e.reading] else [])
    {
      ReadingsAfter(trace, e);
      PhaseAfter(nodeAddress, trace, e);
      AirAfter(trace, e);
      trace := trace + [e];
    }

    /** The sensor is any result of the four it can give. */
    method ReadSensor() returns (result: SensorResult)
      modifies this`readings
      ensures result.status <= 3 && readings == old(readings) + [result]
    {
      assert SensorResult(SENSOR_OK, 0, 0).status <= SENSOR_VALUE_INVALID;
      result :| result.status <= SENSOR_VALUE_INVALID;
      readings := readings + [result];
    }

    method StartReceiver() returns (ok: bool)
      requires Sound() && radio.Mirror()
      modifies Objects()
      ensures Sound() && radio.Mirror() && ok && receiverStarted
      ensures radio.chip.regs.opMode % 8 == 5 && !Dio0(radio.chip.regs) && radio.packetLength == 64
      ensures unchanged(this`loraReady, this`trace, this`airBefore, this`readings, this`readBefore)
      ensures unchanged(this`txCounts, this`txMissed, this`sentPolls, this`txPolls, context, clock)
    {
      receiverStarted := radio.Receive(RX_LENGTH);
      return receiverStarted;
    }

    /** `cycle` is the cycle whose transmission has ended. */
    method NotifyTxResult(succeeded: bool, tickMs: uint32, ghost cycle: nat)
      requires Sound() && Tracks(context.Value(), Awake(cycle))
      modifies context, clock
      ensures Sound() && context.nodeAddress == old(context.nodeAddress)
      ensures Tracks(context.Value(), if succeeded then Waiting(cycle) else Resting(cycle + 1))
      ensures succeeded ==> context.ackStartedTickMs == tickMs && unchanged(clock)
      ensures old(clock.missed) <= clock.missed
      ensures !succeeded ==> context.intervalStartedTickMs == clock.ms && clock.polls == old(clock.polls) + 1
    {
      TxResult(context.Value(), Awake(cycle), succeeded, tickMs);
      var action := context.HandleEvent(if succeeded then TxSucceeded else TxFailed, null, 0, tickMs);
      if action.kind == TxFailure {
        context.intervalStartedTickMs := clock.NowMs();
      }
    }

    /** The transmission of the frame of the open cycle, recorded as it went. */
    method Send(frame: array<uint8>, length: uint8, ghost reading: SensorResult)
      returns (ok: bool, ghost lengths: seq<uint8>, ghost looks: seq<bool>)
      requires Sound() && Phase().Awake?
      requires 1 < length <= frame.Length && IsUplinkOf(nodeAddress, Phase().cycle, reading, frame[..length])
      modifies this`receiverStarted, this`trace, this`sentPolls, radio, radio.chip
      ensures sentPolls == clock.polls
      ensures Attempted(old(radio.chip.regs), radio.chip.regs, length, 3000, ok, lengths, looks)
      ensures Sound() && radio.Mirror() && !receiverStarted
      ensures Phase() == (var cycle := old(Phase().cycle); if ok then Waiting(cycle) else Resting(cycle + 1))
      ensures OneTransmission(old(trace), trace)
      ensures ReadingsOf(trace) == ReadingsOf(old(trace)) + [reading]
    {
      hide IsUplinkOf, Attempted;
      ghost var air := radio.chip.regs.onAir;
      ok, lengths, looks := radio.Transmit(frame, length, TX_TIMEOUT_MS);
      ghost var aired := radio.chip.regs.onAir != air;
      sentPolls := clock.polls;
      receiverStarted := false;
      Record(Transmitted(reading, frame[..length], ok, aired));
    }

    /**
     * The frame that reports this reading in the open cycle. The build cannot fail, for some frame
     * fits the buffer.
     */
    method BuildFrame(action: Action, sensor: SensorResult, ghost cycle: nat, frame: array<uint8>)
      returns (written: Option<nat>)
      requires IsNodeAddress(nodeAddress) && sensor.status <= 3 && frame.Length == MAX_LENGTH
      requires action.transactionId == cycle % 0x100 && action.sequence == cycle % 0x1_0000
      modifies frame
      ensures written.Some? && written.value == if sensor.status == 0 then 13 else 10
      ensures IsUplinkOf(nodeAddress, cycle, sensor, frame[..written.value])
    {
      hide Frame, Outcome, IsMessageValid, Reports;
      var request := Request(nodeAddress, action.transactionId, action.sequence, sensor);
      var result;
      result, written := Build(request, frame, MAX_LENGTH);
    }

    /** One reading of the sensor, reported by one transmission. */
    method Report(action: Action) returns (ok: bool)
      requires Sound() && Sensed() && IsNodeAddress(nodeAddress) && Phase().Awake?
      requires action.transactionId == Phase().cycle % 0x100 && action.sequence == Phase().cycle % 0x1_0000
      modifies this`readings, this`receiverStarted, this`trace, this`sentPolls, radio, radio.chip
      ensures sentPolls == clock.polls
      ensures Sound() && Sensed() && radio.Mirror() && !receiverStarted
      ensures Phase() == (var cycle := old(Phase().cycle); if ok then Waiting(cycle) else Resting(cycle + 1))
      ensures OneTransmission(old(trace), trace) && |readings| == |old(readings)| + 1
    {
      hide IsUplinkOf, PhaseOf, AirOf, ReadingsOf, Mirrors, OneTransmission, Attempted;
      ghost var cycle := Phase().cycle;
      var sensor := ReadSensor();
      var frame := new uint8[MAX_LENGTH];
      var written := BuildFrame(action, sensor, cycle, frame);
      if written.None? {
        // Left for NotifyTxResult(false, ...), which is never needed.
        assert false;
        return;
      }
      ghost var lengths, looks;
      ok, lengths, looks := Send(frame, written.value, sensor);
    }

    /** One sensor reading, one transmission, and the receiver armed in the same turn if it succeeded. */
    method BuildAndTransmit(action: Action)
      requires Sound() && Live() && Phase().Awake?
      requires action.transactionId == context.pendingTransactionId
      requires action.sequence == context.pendingSequence
      modifies Objects()
      ensures Sound() && Live() && InTime() && context.state != WaitTxResult
      ensures loraReady == old(loraReady) && airBefore == old(airBefore)
      ensures OneTransmission(old(trace), trace) && |readings| == |old(readings)| + 1
      ensures context.state == WaitAck ==> receiverStarted
      ensures txPolls == sentPolls + 1
    {
      hide IsUplinkOf, PhaseOf, AirOf, ReadingsOf, MsAt, Tracks, Timed, Mirrors, OneTransmission;
      ghost var cycle := Phase().cycle;
      TracksMeans(context.Value(), Phase());
      var transmitted := Report(action);
      var tickMs := clock.NowMs();
      txCounts, txMissed, txPolls := clock.seen, clock.missed, clock.polls;
      NotifyTxResult(transmitted, tickMs, cycle);
      TracksMeans(context.Value(), Phase());
      if transmitted {
        TimedFromStart(context.Value(), txCounts);
        var started := StartReceiver();
      } else {
        TimedAtRest(context.Value(), txCounts, clock.seen);
      }
    }

    /** A terminal action starts the next interval; a request for the sensor is served at once. */
    method HandleAction(action: Action)
      requires Sound() && Live()
      requires action.kind.ReadSensor? ==>
        && Phase().Awake?
        && action.transactionId == context.pendingTransactionId && action.sequence == context.pendingSequence
      requires !action.kind.ReadSensor? ==> InTime()
      requires Terminal(action.kind) ==> Phase().Resting?
      modifies Objects()
      ensures Sound() && Live() && InTime() && loraReady == old(loraReady)
      ensures action.kind.ReadSensor? || !old(Phase().Awake?) ==> context.state != WaitTxResult
      ensures if action.kind.ReadSensor? then OneTransmission(old(trace), trace) else trace == old(trace)
      ensures action.kind.ReadSensor? && context.state == WaitAck ==> receiverStarted
      ensures airBefore == old(airBefore)
      ensures !action.kind.ReadSensor? ==>
        && NotAfter(old(Now()), Now())
        && radio.chip.regs == old(radio.chip.regs) && radio.packetLength == old(radio.packetLength)
      ensures Terminal(action.kind) ==> context.intervalStartedTickMs == clock.ms && clock.polls == old(clock.polls) + 1
      ensures !Terminal(action.kind) && !action.kind.ReadSensor? ==>
        && context.Value() == old(context.Value()) && clock.seen == old(clock.seen)
        && txCounts == old(txCounts) && txMissed == old(txMissed) && clock.missed == old(clock.missed)
    {
      hide IsUplinkOf, PhaseOf, AirOf, ReadingsOf, MsAt, Timed, Mirrors, OneTransmission, Tracks;
      TracksMeans(context.Value(), Phase());
      if action.kind.ReadSensor? {
        BuildAndTransmit(action);
        return;
      }
      if action.kind in {TransactionComplete, AckTimeout, TxFailure} {
        ghost var before := context.Value();
        context.intervalStartedTickMs := clock.NowMs();
        TracksAnyInterval(before, context.Value(), Phase());
        TimedAtRest(context.Value(), txCounts, clock.seen);
      }
    }

    lemma TracksAnyInterval(n: Node, m: Node, phase: Phase)
      requires Tracks(n, phase) && m == n.(intervalStartedTickMs := m.intervalStartedTickMs)
      ensures Tracks(m, phase)
    {}

    /** An event handed over in an open cycle, at the sample just taken; the end of the cycle is recorded. */
    method Deliver(kind: EventType, frame: array?<uint8>, frameLength: nat, tickMs: uint32, ghost last: nat)
      returns (action: Action)
      requires Sound() && Live() && !Phase().Resting?
      requires kind == TimerTick || kind == FrameReceived
      requires frame != null ==> frameLength <= frame.Length
      requires txMissed <= clock.missed
      requires Timed(context.Value(), txCounts, last) && last <= clock.seen < last + AppTime.WRAP
      requires tickMs == MsAt(clock.seen) % AppTime.WRAP
      modifies this`trace, context
      ensures Sound() && Live() && InTime()
      ensures action.kind == ActionType.None || action.kind == TransactionComplete || action.kind == AckTimeout
      ensures action.kind == ActionType.None ==> trace == old(trace) && context.Value() == old(context.Value())
      ensures action.kind != ActionType.None ==> old(Phase()).Waiting? && Phase().Resting? && trace != old(trace)
      ensures old(Phase()).Waiting? ==>
        && NotAfter(Tx(), Now())
        && var heard := if kind == TimerTick || frame == null then [] else frame[..frameLength];
           trace == old(trace) + Ended(nodeAddress, old(Phase()).cycle, heard, Tx(), Now())
    {
      hide IsUplinkOf, PhaseOf, AirOf, ReadingsOf, MsAt, Mirrors, Tracks, AckFrame, Step;
      ghost var before, phase := context.Value(), Phase();
      ghost var bytes := if frame == null then [] else frame[..frameLength];
      TracksMeans(before, phase);
      if phase.Waiting? {
        WaitOutcome(before, phase, Event(kind, bytes, tickMs), txCounts, last, clock.seen);
        AckIsNotEmpty(nodeAddress, phase.cycle);
      } else {
        AwakeIgnores(before, phase, Event(kind, bytes, tickMs));
        TimedAtRest(before, txCounts, clock.seen);
      }
      action := context.HandleEvent(kind, frame, frameLength, tickMs);
      if action.kind == TransactionComplete {
        Record(Accepted(bytes, clock.seen - txCounts, clock.missed - txMissed));
        TracksMeans(context.Value(), Phase());
      } else if action.kind == AckTimeout {
        Record(TimedOut(clock.seen - txCounts, clock.missed - txMissed));
        TracksMeans(context.Value(), Phase());
      }
    }

    /**
     * The deadline is tested on every turn that has nothing better to do; before the wait, nothing
     * happens. `at` is the sample it is tested at.
     */
    method IdleTick() returns (ghost at: Sample)
      requires Sound() && Live() && InTime() && !Phase().Resting?
      modifies Objects()
      ensures Sound() && Live() && InTime() && loraReady == old(loraReady) && airBefore == old(airBefore)
      ensures NotAfter(old(Now()), at) && radio.packetLength == old(radio.packetLength)
      ensures old(Phase()).Waiting? ==>
        && context.state != WaitTxResult
        && NotAfter(old(Tx()), at)
        && trace == old(trace) + Ended(nodeAddress, old(Phase()).cycle, [], old(Tx()), at)
      ensures old(Phase()).Awake? ==> trace == old(trace) && context.Value() == old(context.Value())
      ensures trace == old(trace) ==> radio.chip.regs.waitedMs == old(radio.chip.regs.waitedMs) + 1
    {
      hide IsUplinkOf, PhaseOf, AirOf, ReadingsOf, MsAt, Mirrors, Tracks, OneTransmission, Ended;
      ghost var last := clock.seen;
      var tickMs := clock.NowMs();
      at := Now();
      var action := Deliver(TimerTick, null, 0, tickMs, last);
      HandleAction(action);
      if action.kind == ActionType.None {
        radio.chip.DelayMs(IDLE_DELAY_MS);
      }
    }

    /**
     * Sleep as its caller sees it: the radio is put to sleep and verified, the rest either works or
     * fails for good. Whether the peripherals were drained and the RTC woke the processor is the subject
     * of NodePower.
     */
    method PowerSleep(intervalMs: uint32) returns (ok: bool, ghost drained: bool, ghost woken: bool)
      requires radio.Valid()
      modifies this`powerReady, this`trace, radio`status, radio`readBytes, radio.chip
      ensures radio.chip.regs.onAir == old(radio.chip.regs.onAir)
      ensures trace == old(trace) + [if ok then Slept(intervalMs) else SleepFailed]
      ensures Phase() == Next(nodeAddress, old(Phase()), if ok then Slept(intervalMs) else SleepFailed)
      ensures Air() == old(Air()) && ReadingsOf(trace) == ReadingsOf(old(trace))
      ensures var before, after := old(radio.chip.regs), radio.chip.regs;
        var acceptable := old(powerReady) && rtcIrqEnabled && 0 < intervalMs <= 4_194_303_999;
        var asleep := LongRange(before.opMode) && after.opMode == WithMode(before.opMode, 0)
                      && after.log.transfers == before.log.transfers + [true, true, true];
        && (ok <==> acceptable && drained && asleep && woken)
        && (powerReady <==> ok || (old(powerReady) && !acceptable))
      ensures ok ==> radio.Mirror() && radio.status == SleepStatus
    {
      hide Next, PhaseOf, AirOf, ReadingsOf, P.TicksFor, LongRange, WithMode, Mirrors;
      R.TicksRefused(intervalMs);
      ok, drained, woken := PrepareAndWake(intervalMs);
      Record(if ok then Slept(intervalMs) else SleepFailed);
    }

    method PrepareAndWake(intervalMs: uint32) returns (ok: bool, ghost drained: bool, ghost woken: bool)
      modifies this`powerReady, radio`status, radio`readBytes, radio.chip
      ensures radio.chip.regs.onAir == old(radio.chip.regs.onAir)
      ensures var before, after := old(radio.chip.regs), radio.chip.regs;
        var acceptable := old(powerReady) && rtcIrqEnabled && 0 < P.TicksFor(intervalMs) <= P.UINT32_MAX;
        var asleep := LongRange(before.opMode) && after.opMode == WithMode(before.opMode, 0)
                      && after.log.transfers == before.log.transfers + [true, true, true];
        && (ok <==> acceptable && drained && asleep && woken)
        && (powerReady <==> ok || (old(powerReady) && !acceptable))
      ensures ok ==> radio.Mirror() && radio.status == SleepStatus
    {
      hide P.TicksFor, LongRange, WithMode, Mirrors;
      var uartAndSpiDone, rtcWoke: bool := *, *;
      drained, woken := uartAndSpiDone, rtcWoke;
      var ticks := P.TicksFor(intervalMs);
      if !powerReady || ticks == 0 || ticks > P.UINT32_MAX || !rtcIrqEnabled {
        return false, drained, woken;
      }
      if !uartAndSpiDone {
        powerReady := false;
        return false, drained, woken;
      }
      var asleep := SleepRadio(radio);
      if !asleep {
        powerReady := false;
        return false, drained, woken;
      }
      powerReady := rtcWoke;
      return powerReady, drained, woken;
    }

    /** A whole sleep and then this cycle's transmission, or a halt. */
    method SleepInterval()
      requires Sound() && Live() && InTime() && Phase().Resting? && loraReady
      modifies Objects()
      ensures Sound() && Sensed() && !Phase().Broken? && airBefore == old(airBefore)
      ensures loraReady ==> Live() && InTime() && context.state != WaitTxResult
      ensures if loraReady then OneTransmission(old(trace) + [Slept(5000)], trace)
              else trace == old(trace) + [SleepFailed]
      ensures loraReady && context.state == WaitAck ==> receiverStarted
    {
      hide IsUplinkOf, PhaseOf, AirOf, ReadingsOf, MsAt, Mirrors, Tracks, OneTransmission, Step, LongRange, WithMode;
      TracksMeans(context.Value(), Phase());
      receiverStarted := false;
      var slept, drained, woken := PowerSleep(INTERVAL_MS);
      if !slept {
        loraReady := false;
        return;
      }
      ghost var resting := Resting(Phase().cycle);
      var tickMs := clock.NowMs();
      WakeReadsSensor(context.Value(), resting, tickMs);
      var action := context.HandleEvent(IntervalElapsed, null, 0, tickMs);
      HandleAction(action);
      TracksMeans(context.Value(), Phase());
    }

    /** The radio from any state; what it was still sending belongs to the time before. */
    method StartRadio()
      requires radio.Valid() && clock.Valid() && !receiverStarted && trace == []
      modifies this`airBefore, radio, radio.chip
      ensures Sound() && radio.Mirror()
    {
      hide Mirrors, PhaseOf;
      radio.Initialize(RX_LENGTH);
      airBefore := radio.chip.regs.onAir;
      assert AirOf([]) == [];
    }

    /** A new start of the application, before anything has worked. */
    method Restart()
      requires Inv()
      modifies this`loraReady, this`receiverStarted, this`trace, this`airBefore, this`readBefore
      ensures Inv() && !loraReady && !receiverStarted && trace == []
    {
      hide Mirrors, Next, Tracks, Timed;
      loraReady := false;
      receiverStarted := false;
      trace := [];
      airBefore := radio.chip.regs.onAir;
      readBefore := readings;
      assert AirOf([]) == [] && ReadingsOf([]) == [];
    }

    /** The machine starts last. */
    method StartMachine() returns (ok: bool)
      requires Sound() && Sensed() && radio.Mirror() && !loraReady && trace == []
      modifies this`loraReady, this`txMissed, context, clock
      ensures Inv() && ok == loraReady && (ok <==> 1 <= nodeAddress <= 254)
      ensures clock.busyReads == old(clock.busyReads)
      ensures ok ==> context.state == WaitInterval
    {
      assert Phase() == Resting(0);
      hide Mirrors, PhaseOf, AirOf, Tracks, Timed, MsAt;
      var tickMs := clock.NowMs();
      txMissed := 0;
      loraReady := context.Initialize(nodeAddress, tickMs);
      InitialTracks(nodeAddress, tickMs);
      TimedAtRest(Initial(nodeAddress, tickMs), txCounts, clock.seen);
      return loraReady;
    }

    /**
     * The node becomes ready exactly if the timer started, its RTC interrupt is enabled, the power code
     * started, the radio answers with version 0x12 and the address is a node's. `timer` is what the
     * waits of the timer saw.
     */
    method Initialize()
      returns (ok: bool, ghost timer: seq<seq<bool>>, ghost powered: bool, ghost version: uint8)
      requires Inv()
      modifies Objects()
      ensures Inv() && ok == loraReady && trace == []
      ensures clock.busyReads == old(clock.busyReads) + Joined(timer)
      ensures ok <==>
        && |timer| == 5 && Waited(timer[4], true)
        && old(rtcIrqEnabled) && powered && version == 0x12 && 1 <= nodeAddress <= 254
      ensures ok ==> context.state == WaitInterval && powerReady
      ensures rtcIrqEnabled == old(rtcIrqEnabled)
    {
      hide Mirrors, PhaseOf, AirOf, ReadingsOf, Tracks, Timed;
      Restart();
      var rtcStarted: bool, answer: uint8 := *, *;
      powered, version := rtcStarted, answer;
      var timerStarted;
      timerStarted, timer := clock.Initialize();
      if !timerStarted {
        return false, timer, powered, version;
      }
      powerReady := rtcIrqEnabled && rtcStarted;
      if !powerReady {
        return false, timer, powered, version;
      }
      StartRadio();
      if answer != EXPECTED_VERSION {
        return false, timer, powered, version;
      }
      ok := StartMachine();
    }

    /**
     * A turn while waiting: the deadline first, then the receiver, then what it has received. The
     * turn adds exactly what its samples and the bytes it heard call for.
     */
    method AwaitAck() returns (ghost turn: Turn)
      requires Sound() && Live() && InTime() && Phase().Waiting?
      modifies Objects()
      ensures Sound() && Live() && InTime() && context.state != WaitTxResult && loraReady == old(loraReady)
      ensures airBefore == old(airBefore)
      ensures InOrder(old(Tx()), turn) && NotAfter(old(Now()), turn.first)
      ensures trace == old(trace) + EndedBy(nodeAddress, old(Phase()).cycle, old(Tx()), turn)
      ensures turn.Listened? ==>
        && ByItself(turn.listening, turn.chip) && turn.heard == BytesOf(turn.chip, radio.PacketSize(turn.chip))
        && if old(receiverStarted) then turn.listening == old(radio.chip.regs)
           else turn.listening.opMode % 8 == 5 && !Dio0(turn.listening)
    {
      hide IsUplinkOf, PhaseOf, AirOf, ReadingsOf, MsAt, Mirrors, Tracks, OneTransmission, ByItself, Dio0, AckFrame;
      ghost var last, cycle := clock.seen, Phase().cycle;
      AckIsNotEmpty(nodeAddress, cycle);
      var tickMs := clock.NowMs();
      ghost var first := Now();
      var action := Deliver(TimerTick, null, 0, tickMs, last);
      if action.kind != ActionType.None {
        HandleAction(action);
        return TooLate(first);
      }
      if !receiverStarted {
        var started := StartReceiver();
        if !started {
          // The driver's receive call has no failure.
          assert false;
          return;
        }
      }
      ghost var listening := radio.chip.regs;
      ghost var chip, heard, at := CheckReceiver();
      turn := Listened(first, listening, chip, heard, at);
    }

    /**
     * What the receiver has, if anything, goes to the machine with the time it was found: `chip` is the
     * chip when its line was looked at, `heard` what was fetched from it, `at` the sample handed over.
     */
    method CheckReceiver() returns (ghost chip: Regs, ghost heard: seq<uint8>, ghost at: Sample)
      requires Sound() && Live() && InTime() && Phase().Waiting? && receiverStarted
      modifies Objects()
      ensures Sound() && Live() && InTime() && context.state != WaitTxResult && loraReady == old(loraReady)
      ensures airBefore == old(airBefore) && radio.packetLength == old(radio.packetLength)
      ensures ByItself(old(radio.chip.regs), chip) && heard == BytesOf(chip, radio.PacketSize(chip))
      ensures NotAfter(old(Tx()), at) && NotAfter(old(Now()), at)
      ensures trace == old(trace) + Ended(nodeAddress, old(Phase()).cycle, heard, old(Tx()), at)
    {
      hide IsUplinkOf, PhaseOf, AirOf, ReadingsOf, MsAt, Mirrors, Tracks, OneTransmission;
      hide ByItself, Dio0, Fetched, Ended;
      var bytesReceived;
      bytesReceived, chip := Listen();
      heard := radio.rxBuffer[..bytesReceived];
      if bytesReceived == 0 {
        at := IdleTick();
        return;
      }
      at := HandOver(bytesReceived);
    }

    /** The fetched bytes are read, and the receiver counts as stopped until it is started again. */
    method HandOver(bytes: uint8) returns (ghost at: Sample)
      requires radio.Valid() && clock.Valid() && radio.chip.regs.onAir == Air()
      requires Live() && InTime() && Phase().Waiting? && bytes == radio.readBytes
      modifies Objects()
      ensures Sound() && Live() && InTime() && context.state != WaitTxResult && loraReady == old(loraReady)
      ensures airBefore == old(airBefore) && radio.packetLength == old(radio.packetLength)
      ensures NotAfter(old(Tx()), at) && NotAfter(old(Now()), at)
      ensures trace ==
        old(trace) + Ended(nodeAddress, old(Phase()).cycle, old(radio.rxBuffer[..bytes]), old(Tx()), at)
    {
      hide IsUplinkOf, PhaseOf, AirOf, ReadingsOf, MsAt, Mirrors, Tracks, OneTransmission, Ended;
      ghost var last := clock.seen;
      var tickMs := clock.NowMs();
      at := Now();
      var frame := new uint8[256];
      var taken := radio.Read(frame, bytes);
      receiverStarted := false;
      var action := Deliver(FrameReceived, frame, taken, tickMs, last);
      HandleAction(action);
    }

    /** The bytes available from a receiver that is running. */
    method Listen() returns (bytesReceived: uint8, ghost chip: Regs)
      requires Sound() && radio.Mirror() && receiverStarted
      modifies radio`readBytes, radio.chip, radio.rxBuffer
      ensures radio.Mirror() && radio.chip.regs.onAir == Air() && bytesReceived == radio.readBytes
      ensures ByItself(old(radio.chip.regs), chip)
      ensures radio.rxBuffer[..bytesReceived] == BytesOf(chip, radio.PacketSize(chip))
    {
      bytesReceived, chip := radio.Available();
    }

    /** One turn of the main loop. `turn` is what a turn that waits for an ACK saw. */
    method Tasks() returns (ghost turn: Turn)
      requires Inv()
      modifies Objects()
      ensures Inv()
      ensures !old(loraReady) ==>
        && !loraReady && trace == old(trace) && radio.chip.regs == old(radio.chip.regs)
        && !rtcIrqEnabled && !spiIrqEnabled && !uartIrqEnabled
      ensures old(loraReady && context.state == WaitInterval) ==>
        if loraReady then
          OneTransmission(old(trace) + [Slept(5000)], trace) && (context.state == WaitAck ==> receiverStarted)
        else trace == old(trace) + [SleepFailed]
      ensures old(loraReady && context.state == WaitAck) ==>
        && loraReady && InOrder(old(Tx()), turn) && NotAfter(old(Now()), turn.first)
        && IsNodeAddress(nodeAddress) && old(Phase()).Waiting?
        && trace == old(trace) + EndedBy(nodeAddress, old(Phase()).cycle, old(Tx()), turn)
        && (turn.Listened? ==>
              && ByItself(turn.listening, turn.chip) && turn.heard == BytesOf(turn.chip, radio.PacketSize(turn.chip))
              && if old(receiverStarted) then turn.listening == old(radio.chip.regs)
                 else turn.listening.opMode % 8 == 5 && !Dio0(turn.listening))
      ensures airBefore == old(airBefore)
    {
      hide IsUplinkOf, PhaseOf, AirOf, ReadingsOf, MsAt, Mirrors, Tracks, OneTransmission, ByItself, Dio0, Ended;
      turn := TooLate(Sample(0, 0));
      if !loraReady {
        rtcIrqEnabled := false;
        spiIrqEnabled := false;
        uartIrqEnabled := false;
        return;
      }
      TracksMeans(context.Value(), Phase());
      if context.state == WaitInterval {
        SleepInterval();
        return;
      }
      if context.state != WaitAck {
        // Only between a wake and the end of its transmission, never between turns.
        assert false;
        return;
      }
      turn := AwaitAck();
      TracksMeans(context.Value(), Phase());
    }

    /**
     * The main program, for any number of turns: its trace is a word of the language of AppTrace, what
     * the antenna has sent is exactly what the trace says, and so is what the sensor has given.
     */
    method Run(turns: nat)
      requires Inv()
      modifies Objects()
      ensures Inv()
      ensures PhaseOf(nodeAddress, trace) != Broken
      ensures radio.chip.regs.onAir == airBefore + AirOf(trace)
      ensures readings == readBefore + ReadingsOf(trace)
      ensures loraReady ==> context.state != WaitTxResult && radio.Mirror()
      ensures receiverStarted ==> radio.chip.regs.opMode % 8 == 5
    {
      var ready, timer, powered, version := Initialize();
      hide PhaseOf, AirOf, ReadingsOf, Tracks, Timed;
      for i := 0 to turns
        invariant Inv()
      {
        ghost var turn := Tasks();
      }
    }
  }
}
