/** What the application does over a whole run, as a trace, and the language such traces belong to. */
module AppTrace {
  import opened Words
  import opened NodePacket
  import opened NodePacketProofs
  import opened NodeResponse
  import opened NodeState
  import opened NodeStateProofs
  import opened AppTime
  import D = Deadline

  /**
   * The time since the transmission is `counts` of the elapsed-time counter and `missed` whole wraps of
   * it that no sample saw; none is missed while the counter is sampled once per wrap.
   */
  datatype AppEvent =
    | Slept(intervalMs: nat)
    | SleepFailed
    | Transmitted(reading: SensorResult, frame: seq<uint8>, ok: bool, aired: bool)
    | Accepted(ack: seq<uint8>, counts: nat, missed: nat)
    | TimedOut(counts: nat, missed: nat)

  datatype Phase =
    | Resting(cycle: nat)
    | Awake(cycle: nat)
    | Waiting(cycle: nat)
    | Halted(cycle: nat)
    | Broken

  /** A frame that reports the reading in the node's name and with the numbers of the cycle. */
  predicate IsUplinkOf(address: uint8, cycle: nat, reading: SensorResult, frame: seq<uint8>) {
    Reports(frame, Request(address, cycle % 0x100, cycle % 0x1_0000, reading), true)
  }

  function AckFrame(address: uint8, cycle: nat): seq<uint8>
    requires IsNodeAddress(address)
  {
    Frame(AckMessage(address, cycle % 0x100, cycle % 0x1_0000))
  }

  /** Five seconds of sleep, one uplink of this cycle, one end of this cycle, and so on until a sleep fails. */
  function Next(address: uint8, phase: Phase, e: AppEvent): Phase {
    match e
    case Slept(intervalMs) => if phase.Resting? && intervalMs == 5000 then Awake(phase.cycle) else Broken
    case SleepFailed => if phase.Resting? then Halted(phase.cycle) else Broken
    case Transmitted(reading, frame, ok, aired) =>
      if !phase.Awake? || !IsUplinkOf(address, phase.cycle, reading, frame) || (ok && !aired) then Broken
      else if ok then Waiting(phase.cycle)
      else Resting(phase.cycle + 1)
    case Accepted(ack, counts, _) =>
      if phase.Waiting? && IsNodeAddress(address) && ack == AckFrame(address, phase.cycle) && counts < 46875 then
        Resting(phase.cycle + 1)
      else Broken
    case TimedOut(counts, _) =>
      if phase.Waiting? && counts >= 46829 then Resting(phase.cycle + 1) else Broken
  }

  function PhaseOf(address: uint8, trace: seq<AppEvent>): Phase {
    if trace == [] then Resting(0)
    else Next(address, PhaseOf(address, trace[..|trace| - 1]), trace[|trace| - 1])
  }

  lemma PhaseAfter(address: uint8, trace: seq<AppEvent>, e: AppEvent)
    ensures PhaseOf(address, trace + [e]) == Next(address, PhaseOf(address, trace), e)
  {
    assert (trace + [e])[..|trace|] == trace;
  }

  /** The frames that reached the air. */
  function AirOf(trace: seq<AppEvent>): seq<seq<uint8>> {
    if trace == [] then []
    else
      var front, last := AirOf(trace[..|trace| - 1]), trace[|trace| - 1];
      if last.Transmitted? && last.aired then front + [last.frame] else front
  }

  lemma AirAfter(trace: seq<AppEvent>, e: AppEvent)
    ensures AirOf(trace + [e]) == AirOf(trace) + (if e.Transmitted? && e.aired then [e.frame] else [])
  {
    assert (trace + [e])[..|trace|] == trace;
  }

  /** The sensor readings that were reported. */
  function ReadingsOf(trace: seq<AppEvent>): seq<SensorResult> {
    if trace == [] then []
    else
      var front, last := ReadingsOf(trace[..|trace| - 1]), trace[|trace| - 1];
      if last.Transmitted? then front + [last.reading] else front
  }

  lemma ReadingsAfter(trace: seq<AppEvent>, e: AppEvent)
    ensures ReadingsOf(trace + [e]) == ReadingsOf(trace) + (if e.Transmitted? then [e.reading] else [])
  {
    assert (trace + [e])[..|trace|] == trace;
  }

  // ----- what the language means -----

  lemma {:induction false} PrefixNotBroken(address: uint8, trace: seq<AppEvent>, i: nat)
    requires i <= |trace| && PhaseOf(address, trace) != Broken
    ensures PhaseOf(address, trace[..i]) != Broken
    decreases |trace|
  {
    if i < |trace| {
      hide IsUplinkOf, AckFrame;
      var front := trace[..|trace| - 1];
      PrefixNotBroken(address, front, i);
      assert front[..i] == trace[..i];
    } else {
      assert trace[..i] == trace;
    }
  }

  /** The phase before and after each event of a run. */
  lemma PhaseAt(address: uint8, trace: seq<AppEvent>, i: nat)
    requires i < |trace| && PhaseOf(address, trace) != Broken
    ensures PhaseOf(address, trace[..i]) != Broken
    ensures PhaseOf(address, trace[..i + 1]) == Next(address, PhaseOf(address, trace[..i]), trace[i]) != Broken
  {
    hide Next, PhaseOf;
    PrefixNotBroken(address, trace, i);
    PrefixNotBroken(address, trace, i + 1);
    assert trace[..i + 1] == trace[..i] + [trace[i]];
    PhaseAfter(address, trace[..i], trace[i]);
  }

  /** Nothing follows a sleep that failed. */
  lemma FailedSleepIsLast(address: uint8, trace: seq<AppEvent>, i: nat)
    requires PhaseOf(address, trace) != Broken
    requires i < |trace| && trace[i].SleepFailed?
    ensures i == |trace| - 1
  {
    PhaseAt(address, trace, i);
    if i + 1 < |trace| {
      PhaseAt(address, trace, i + 1);
    }
  }

  lemma {:induction false} NotAwake(address: uint8, trace: seq<AppEvent>, i: nat, j: nat)
    requires PhaseOf(address, trace) != Broken
    requires i < j < |trace| && trace[i].Transmitted?
    requires forall k :: i < k < j ==> !trace[k].Slept?
    ensures !PhaseOf(address, trace[..j]).Awake?
    decreases j
  {
    PhaseAt(address, trace, j - 1);
    if i < j - 1 {
      NotAwake(address, trace, i, j - 1);
    }
  }

  /** Between any two transmissions the node has slept its whole interval. */
  lemma TransmissionsAreSeparated(address: uint8, trace: seq<AppEvent>, i: nat, j: nat)
    requires PhaseOf(address, trace) != Broken
    requires i < j < |trace| && trace[i].Transmitted? && trace[j].Transmitted?
    ensures exists k :: i < k < j && trace[k].Slept?
  {
    PhaseAt(address, trace, j);
    if forall k :: i < k < j ==> !trace[k].Slept? {
      NotAwake(address, trace, i, j);
    }
  }

  function Transmissions(trace: seq<AppEvent>): nat {
    if trace == [] then 0
    else Transmissions(trace[..|trace| - 1]) + (if trace[|trace| - 1].Transmitted? then 1 else 0)
  }

  lemma {:induction false} OnePerCycle(address: uint8, trace: seq<AppEvent>)
    requires PhaseOf(address, trace) != Broken
    ensures var phase := PhaseOf(address, trace);
            Transmissions(trace) == phase.cycle + (if phase.Waiting? then 1 else 0)
    decreases |trace|
  {
    hide IsUplinkOf;
    if trace != [] {
      OnePerCycle(address, trace[..|trace| - 1]);
    }
  }

  /** The k-th transmission carries the ID and Seq of cycle k. */
  lemma TransmissionIsNumbered(address: uint8, trace: seq<AppEvent>, i: nat)
    requires PhaseOf(address, trace) != Broken
    requires i < |trace| && trace[i].Transmitted?
    ensures IsUplinkOf(address, Transmissions(trace[..i]), trace[i].reading, trace[i].frame)
  {
    PhaseAt(address, trace, i);
    OnePerCycle(address, trace[..i]);
  }

  lemma StartsResting(address: uint8, trace: seq<AppEvent>, i: nat)
    requires i <= |trace| && !PhaseOf(address, trace[..i]).Resting?
    ensures i > 0
  {}

  /** A cycle is acknowledged by the very next event after its own transmission, and in time. */
  lemma AcceptedIsForTheLastUplink(address: uint8, trace: seq<AppEvent>, i: nat)
    requires PhaseOf(address, trace) != Broken
    requires i < |trace| && trace[i].Accepted?
    ensures i > 0 && trace[i - 1].Transmitted? && trace[i - 1].ok && trace[i].counts < 46875
    ensures IsNodeAddress(address) && trace[i].ack == AckFrame(address, Transmissions(trace[..i - 1]))
  {
    hide IsUplinkOf, AckFrame, PhaseOf, Transmissions;
    PhaseAt(address, trace, i);
    assert i > 0 by { StartsResting(address, trace, i); }
    PhaseAt(address, trace, i - 1);
    OnePerCycle(address, trace[..i - 1]);
  }

  predicate OneTransmission(before: seq<AppEvent>, after: seq<AppEvent>) {
    |after| == |before| + 1 && after[..|before|] == before && after[|before|].Transmitted?
  }

  // ----- what a look for the ACK adds -----

  /** The counts the timebase has seen, and the wraps it has missed. */
  datatype Sample = Sample(seen: nat, missed: nat)

  predicate NotAfter(a: Sample, b: Sample) {
    a.seen <= b.seen && a.missed <= b.missed
  }

  /**
   * A transmission ended at `tx`, and the bytes were handed over at `at`: from 1000 ms on the cycle has
   * timed out, before that the ACK of the cycle completes it, and anything else changes nothing.
   */
  function Ended(address: uint8, cycle: nat, heard: seq<uint8>, tx: Sample, at: Sample): (es: seq<AppEvent>)
    requires IsNodeAddress(address) && NotAfter(tx, at)
  {
    if MsAt(at.seen) - MsAt(tx.seen) >= 1000 then [TimedOut(at.seen - tx.seen, at.missed - tx.missed)]
    else if heard == AckFrame(address, cycle) then [Accepted(heard, at.seen - tx.seen, at.missed - tx.missed)]
    else []
  }

  // ----- one event of the machine along the trace -----

  /** The node's context agrees with the phase. */
  predicate Tracks(n: Node, phase: Phase) {
    && !phase.Broken? && !phase.Halted?
    && (n.state == WaitInterval <==> phase.Resting?)
    && (n.state == WaitTxResult <==> phase.Awake?)
    && n.transactionId == phase.cycle % 0x100
    && n.responseSequence == phase.cycle % 0x1_0000
    && (Open(n) ==> n.pendingTransactionId == n.transactionId && n.pendingSequence == n.responseSequence)
  }

  lemma InitialTracks(address: uint8, tickMs: uint32)
    ensures Tracks(Initial(address, tickMs), Resting(0))
  {}

  lemma TracksMeans(n: Node, phase: Phase)
    requires Tracks(n, phase)
    ensures phase != Broken
    ensures phase.Resting? <==> n.state == WaitInterval
    ensures phase.Awake? ==>
              n.pendingTransactionId == phase.cycle % 0x100 && n.pendingSequence == phase.cycle % 0x1_0000
    ensures phase.Waiting? <==> n.state == WaitAck
    ensures phase.Awake? <==> n.state == WaitTxResult
  {}

  lemma WakeReadsSensor(n: Node, phase: Phase, tickMs: uint32)
    requires Is32(n) && Tracks(n, phase) && phase.Resting?
    ensures var (m, action) := Step(n, Event(IntervalElapsed, [], tickMs));
            && Tracks(m, Awake(phase.cycle)) && m.nodeAddress == n.nodeAddress
            && action.kind == ReadSensor
            && action.transactionId == m.pendingTransactionId && action.sequence == m.pendingSequence
  {}

  lemma TxResult(n: Node, phase: Phase, ok: bool, tickMs: uint32)
    requires Is32(n) && Tracks(n, phase) && phase.Awake?
    ensures var (m, action) := Step(n, Event(if ok then TxSucceeded else TxFailed, [], tickMs));
            && m.nodeAddress == n.nodeAddress
            && (if ok then
                  && Tracks(m, Waiting(phase.cycle)) && action.kind == ActionType.None
                  && m.ackStartedTickMs == tickMs
                else Tracks(m, Resting(phase.cycle + 1)) && action.kind == TxFailure)
  {
    IncrementCounts(phase.cycle);
  }

  /** The wait for the ACK began at the sample of txCounts and has not run out at that of last. */
  predicate Timed(n: Node, txCounts: nat, last: nat) {
    n.state == WaitAck ==>
      && n.ackStartedTickMs == MsAt(txCounts) % AppTime.WRAP
      && txCounts <= last
      && MsAt(last) - MsAt(txCounts) < ACK_TIMEOUT_MS
  }

  /** Before the transmission has ended, timer ticks and frames are ignored. */
  lemma AwakeIgnores(n: Node, phase: Phase, e: Event)
    requires Is32(n) && Tracks(n, phase) && phase.Awake? && e.tickMs < AppTime.WRAP
    requires e.kind == TimerTick || e.kind == FrameReceived
    ensures Step(n, e).0 == n && Step(n, e).1.kind == ActionType.None
  {}

  lemma TimedFromStart(n: Node, txCounts: nat)
    requires n.state == WaitAck ==> n.ackStartedTickMs == MsAt(txCounts) % AppTime.WRAP
    ensures Timed(n, txCounts, txCounts)
  {}

  lemma TimedAtRest(n: Node, txCounts: nat, last: nat)
    requires n.state != WaitAck
    ensures Timed(n, txCounts, last)
  {}

  /** Every outcome of an event while waiting, and exactly when it has it. */
  lemma WaitOutcome(n: Node, phase: Phase, e: Event, txCounts: nat, last: nat, now: nat)
    requires Is32(n) && Tracks(n, phase) && phase.Waiting? && IsNodeAddress(n.nodeAddress)
    requires Timed(n, txCounts, last) && last <= now < last + AppTime.WRAP
    requires e.tickMs == MsAt(now) % AppTime.WRAP
    ensures txCounts <= now
    ensures var (m, action) := Step(n, e);
            && m.nodeAddress == n.nodeAddress
            && (action.kind == AckTimeout <==> MsAt(now) - MsAt(txCounts) >= 1000)
            && (action.kind == TransactionComplete <==>
                  && MsAt(now) - MsAt(txCounts) < 1000
                  && e.kind == FrameReceived && e.frame == AckFrame(n.nodeAddress, phase.cycle))
            && match action.kind
               case None => m == n && Timed(m, txCounts, now)
               case TransactionComplete => Tracks(m, Resting(phase.cycle + 1)) && now - txCounts < 46875
               case AckTimeout => Tracks(m, Resting(phase.cycle + 1)) && now - txCounts >= 46829
               case _ => false
  {
    hide Decoded, Frame, MsAt;
    var u := n.(ackStartedTickMs := MsAt(txCounts), intervalStartedTickMs := 0);
    assert WrapNode(u) == n.(intervalStartedTickMs := 0);
    D.MsMonotone(txCounts, last);
    D.RealDeadline(u, e, txCounts, last, now);
    IncrementCounts(phase.cycle);
    OnlyTheAckCompletes(n, e, Elapsed32(e.tickMs, n.intervalStartedTickMs), Elapsed32(e.tickMs, n.ackStartedTickMs));
  }

  lemma AckIsNotEmpty(address: uint8, cycle: nat)
    requires IsNodeAddress(address)
    ensures |AckFrame(address, cycle)| == 9
  {}
}
