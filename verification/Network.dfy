/**
 * The node, an echoing gateway and the radio channel between them. The channel loses, duplicates,
 * reorders and corrupts frames, and carries other nodes' traffic.
 */
module Network {
  import opened Words
  import opened NodePacket
  import opened NodePacketProofs
  import opened NodeResponse
  import opened NodeState
  import opened NodeStateProofs

  /** What the node reported in one of its cycles, counted from 0 since initialization. */
  datatype Report = Report(cycle: nat, message: Message)

  datatype Origin = Uplink(report: Report) | Echo(report: Report) | Foreign

  datatype Airborne = Airborne(frame: seq<uint8>, origin: Origin)

  datatype World = World(
    node: Node,
    cycle: nat,             // cycles finished so far, which is the number of the one in progress
    air: set<Airborne>,     // every frame that may still be delivered, any number of times
    sent: set<Report>,
    heard: set<Report>)     // the node's reports the gateway has accepted

  datatype Move =
    | Internal(kind: EventType, tickMs: uint32)
    | Transmit(sensor: SensorResult)
    | NodeReceives(item: Airborne, received: seq<uint8>, tickMs: uint32)
    | GatewayReceives(item: Airborne, received: seq<uint8>)
    | OthersSend(frame: seq<uint8>)
    | Lose(item: Airborne)

  function Start(address: uint8, tickMs: uint32): World {
    World(Initial(address, tickMs), 0, {}, {}, {})
  }

  /** The frame of this cycle's sensor reading; the application's buffer holds any frame. */
  function ReportOf(w: World, sensor: SensorResult): Report
    requires sensor.status <= SENSOR_VALUE_INVALID
  {
    var request := Request(w.node.nodeAddress, w.node.pendingTransactionId, w.node.pendingSequence, sensor);
    Report(w.cycle, Outcome(request, MAX_LENGTH).value)
  }

  predicate IsUplink(m: Message) {
    m.kind == TYPE_DATA || m.kind == TYPE_ERROR
  }

  /** A reception is the frame itself or, of a valid frame, a corruption within the code's detection bounds. */
  ghost predicate Delivers(item: Airborne, received: seq<uint8>) {
    received == item.frame || (Decoded(item.frame).Some? && Corrupts(item.frame, received))
  }

  /** Any bytes but an uplink in the node's name or an ACK to it: noise, polls, other nodes and their ACKs. */
  predicate IsForeign(address: uint8, frame: seq<uint8>) {
    match Decoded(frame)
    case None => true
    case Some(m) =>
      if m.kind == TYPE_ACK then m.destination != address
      else IsUplink(m) ==> m.source != address
  }

  ghost predicate Enabled(w: World, move: Move) {
    Is32(w.node) &&
    match move
    case Internal(kind, _) => kind != FrameReceived
    case Transmit(sensor) =>
      && w.node.state == WaitTxResult && sensor.status <= SENSOR_VALUE_INVALID
      && IsMessageValid(ReportOf(w, sensor).message)
    case NodeReceives(item, received, _) => item in w.air && Delivers(item, received)
    case GatewayReceives(item, received) => item in w.air && Delivers(item, received)
    case OthersSend(frame) => IsForeign(w.node.nodeAddress, frame)
    case Lose(item) => item in w.air
  }

  function NodeHandles(w: World, e: Event): (World, Action)
    requires Is32(w.node) && e.tickMs < 0x1_0000_0000
  {
    var (n, action) := Step(w.node, e);
    (w.(node := n, cycle := if Terminal(action.kind) then w.cycle + 1 else w.cycle), action)
  }

  /** The gateway answers an accepted uplink with its ID and Seq. */
  function GatewayHandles(w: World, origin: Origin, received: seq<uint8>): World {
    match Decoded(received)
    case None => w
    case Some(m) =>
      if !IsUplink(m) then w
      else
        var ack := AckMessage(m.source, m.transactionId, m.sequence);
        if !IsMessageValid(ack) then w
        else if origin.Uplink? then
          w.(air := w.air + {Airborne(Frame(ack), Echo(origin.report))}, heard := w.heard + {origin.report})
        else
          w.(air := w.air + {Airborne(Frame(ack), Foreign)})
  }

  ghost function Moved(w: World, move: Move): (World, Action)
    requires Enabled(w, move)
  {
    match move
    case Internal(kind, tickMs) => NodeHandles(w, Event(kind, [], tickMs))
    case Transmit(sensor) =>
      var report := ReportOf(w, sensor);
      (w.(air := w.air + {Airborne(Frame(report.message), Uplink(report))}, sent := w.sent + {report}), NO_ACTION)
    case NodeReceives(_, received, tickMs) => NodeHandles(w, Event(FrameReceived, received, tickMs))
    case GatewayReceives(item, received) => (GatewayHandles(w, item.origin, received), NO_ACTION)
    case OthersSend(frame) => (w.(air := w.air + {Airborne(frame, Foreign)}), NO_ACTION)
    case Lose(item) => (w.(air := w.air - {item}), NO_ACTION)
  }

  /** The worlds some sequence of moves leads to. */
  ghost predicate Reaches(start: World, moves: seq<Move>, end: World)
    decreases |moves|
  {
    if moves == [] then end == start
    else Enabled(start, moves[0]) && Reaches(Moved(start, moves[0]).0, moves[1..], end)
  }

  // ----- the invariant -----

  predicate Numbered(m: Message, cycle: nat) {
    m.transactionId == cycle % 0x100 && m.sequence == cycle % 0x1_0000
  }

  predicate GoodReport(w: World, r: Report) {
    && r.cycle <= w.cycle
    && IsMessageValid(r.message) && IsUplink(r.message)
    && r.message.source == w.node.nodeAddress && Numbered(r.message, r.cycle)
  }

  predicate GoodItem(w: World, item: Airborne) {
    match item.origin
    case Uplink(r) => r in w.sent && GoodReport(w, r) && item.frame == Frame(r.message)
    case Echo(r) =>
      && r in w.heard
      && IsMessageValid(AckMessage(w.node.nodeAddress, r.message.transactionId, r.message.sequence))
      && item.frame == Frame(AckMessage(w.node.nodeAddress, r.message.transactionId, r.message.sequence))
    case Foreign => IsForeign(w.node.nodeAddress, item.frame)
  }

  predicate NodeNumbered(w: World) {
    && w.node.transactionId == w.cycle % 0x100
    && w.node.responseSequence == w.cycle % 0x1_0000
    && (Open(w.node) ==>
          && w.node.pendingTransactionId == w.node.transactionId
          && w.node.pendingSequence == w.node.responseSequence)
  }

  ghost predicate Inv(w: World) {
    && IsNodeAddress(w.node.nodeAddress)
    && Is32(w.node)
    && NodeNumbered(w)
    && (forall item :: item in w.air ==> GoodItem(w, item))
    && (forall r :: r in w.heard ==> r in w.sent)
    && (forall r :: r in w.sent ==> GoodReport(w, r))
  }

  /** A frame in the air that decodes is the encoding of a valid message. */
  lemma ItemIsFrame(w: World, item: Airborne) returns (m: Message)
    requires Inv(w) && item in w.air && Decoded(item.frame).Some?
    ensures IsMessageValid(m) && item.frame == Frame(m)
    ensures item.origin.Uplink? ==> m == item.origin.report.message
  {
    assert GoodItem(w, item);
    match item.origin {
      case Uplink(r) => m := r.message;
      case Echo(r) => m := AckMessage(w.node.nodeAddress, r.message.transactionId, r.message.sequence);
      case Foreign =>
        m := Decoded(item.frame).value;
        EncodeDecode(item.frame);
    }
  }

  /** What is accepted was delivered intact. */
  lemma AcceptedIsIntact(w: World, item: Airborne, received: seq<uint8>)
    requires Inv(w) && item in w.air && Delivers(item, received)
    requires Decoded(received).Some?
    ensures received == item.frame
  {
    if received != item.frame {
      var m := ItemIsFrame(w, item);
      CorruptionRejected(m, received);
    }
  }

  lemma NodeStepKeeps(w: World, e: Event)
    requires Inv(w) && e.tickMs < 0x1_0000_0000
    ensures Inv(NodeHandles(w, e).0)
  {
    hide Decoded, Frame, IsMessageValid;
    var w' := NodeHandles(w, e).0;
    IncrementCounts(w.cycle);
    assert w'.node.nodeAddress == w.node.nodeAddress;
    assert NodeNumbered(w');
    forall item | item in w'.air ensures GoodItem(w', item) {
      assert GoodItem(w, item);
    }
    forall r | r in w'.sent ensures GoodReport(w', r) {
      assert GoodReport(w, r);
    }
  }

  lemma TransmitKeeps(w: World, sensor: SensorResult)
    requires Inv(w) && Enabled(w, Transmit(sensor))
    ensures Inv(Moved(w, Transmit(sensor)).0)
  {
    hide Decoded, Frame, IsMessageValid;
    var w' := Moved(w, Transmit(sensor)).0;
    var report := ReportOf(w, sensor);
    assert GoodReport(w', report);
    forall item | item in w'.air ensures GoodItem(w', item) {
      assert item in w.air ==> GoodItem(w, item);
    }
    forall r | r in w'.sent ensures GoodReport(w', r) {
      assert r in w.sent ==> GoodReport(w, r);
    }
  }

  /** The ACK the gateway adds echoes a report it has heard, or is another node's. */
  lemma AnswerIsGood(w: World, item: Airborne, received: seq<uint8>, other: Airborne)
    requires Inv(w) && item in w.air && Delivers(item, received)
    requires other in GatewayHandles(w, item.origin, received).air && other !in w.air
    ensures GoodItem(GatewayHandles(w, item.origin, received), other)
  {
    hide Frame, Inv;
    var m := Decoded(received).value;
    var ack := AckMessage(m.source, m.transactionId, m.sequence);
    AcceptedIsIntact(w, item, received);
    var sent := ItemIsFrame(w, item);
    DecodeEncode(sent);
    DecodeEncode(ack);
    assert GoodItem(w, item) by { AirIsGood(w, item); }
  }

  lemma AirIsGood(w: World, item: Airborne)
    requires Inv(w) && item in w.air
    ensures GoodItem(w, item)
  {}

  lemma GatewayKeeps(w: World, item: Airborne, received: seq<uint8>)
    requires Inv(w) && item in w.air && Delivers(item, received)
    ensures Inv(GatewayHandles(w, item.origin, received))
  {
    hide Decoded, Frame, IsMessageValid, IsForeign;
    var w' := GatewayHandles(w, item.origin, received);
    assert GoodItem(w, item);
    forall other | other in w'.air ensures GoodItem(w', other) {
      if other in w.air {
        assert GoodItem(w, other);
      } else {
        AnswerIsGood(w, item, received, other);
      }
    }
    forall r | r in w'.sent ensures GoodReport(w', r) {
      assert GoodReport(w, r);
    }
  }

  lemma OthersKeep(w: World, frame: seq<uint8>)
    requires Inv(w) && Enabled(w, OthersSend(frame))
    ensures Inv(Moved(w, OthersSend(frame)).0)
  {
    hide Decoded, Frame, IsMessageValid, IsForeign;
    var w' := Moved(w, OthersSend(frame)).0;
    forall item | item in w'.air ensures GoodItem(w', item) {
      assert item in w.air ==> GoodItem(w, item);
    }
    forall r | r in w'.sent ensures GoodReport(w', r) {
      assert GoodReport(w, r);
    }
  }

  lemma LoseKeeps(w: World, item: Airborne)
    requires Inv(w) && item in w.air
    ensures Inv(w.(air := w.air - {item}))
  {
    hide Decoded, Frame, IsMessageValid;
    var w' := w.(air := w.air - {item});
    forall other | other in w'.air ensures GoodItem(w', other) {
      assert GoodItem(w, other);
    }
    forall r | r in w'.sent ensures GoodReport(w', r) {
      assert GoodReport(w, r);
    }
  }

  lemma MoveKeeps(w: World, move: Move)
    requires Inv(w) && Enabled(w, move)
    ensures Inv(Moved(w, move).0)
  {
    match move {
      case Internal(kind, tickMs) => NodeStepKeeps(w, Event(kind, [], tickMs));
      case Transmit(sensor) => TransmitKeeps(w, sensor);
      case NodeReceives(_, received, tickMs) => NodeStepKeeps(w, Event(FrameReceived, received, tickMs));
      case GatewayReceives(item, received) => GatewayKeeps(w, item, received);
      case OthersSend(frame) => OthersKeep(w, frame);
      case Lose(item) => LoseKeeps(w, item);
    }
  }

  lemma {:induction false} ReachedIsGood(start: World, moves: seq<Move>, end: World)
    requires Inv(start) && Reaches(start, moves, end)
    ensures Inv(end)
    decreases |moves|
  {
    hide Inv, Enabled, Moved;
    if moves != [] {
      MoveKeeps(start, moves[0]);
      ReachedIsGood(Moved(start, moves[0]).0, moves[1..], end);
    }
  }

  // ----- safety of the acknowledgement -----

  /** The gateway has accepted a report whose cycle number agrees with this one's modulo 65536. */
  ghost predicate Acknowledged(w: World, r: Report) {
    && r in w.heard && r in w.sent
    && r.cycle <= w.cycle
    && r.cycle % 0x1_0000 == w.cycle % 0x1_0000
    && r.message.source == w.node.nodeAddress
    && r.message.transactionId == w.node.pendingTransactionId
    && r.message.sequence == w.node.pendingSequence
  }

  lemma CompletionIsAcknowledged(w: World, item: Airborne, received: seq<uint8>, tickMs: uint32)
      returns (r: Report)
    requires Inv(w) && Enabled(w, NodeReceives(item, received, tickMs))
    requires Moved(w, NodeReceives(item, received, tickMs)).1.kind == TransactionComplete
    ensures Acknowledged(w, r) && item.origin == Echo(r)
  {
    var e := Event(FrameReceived, received, tickMs);
    var n := w.node;
    assert n.state == WaitAck && Decoded(received).Some? by { CompletesOnlyWaiting(n, e); }
    OnlyTheAckCompletes(n, e, Elapsed32(tickMs, n.intervalStartedTickMs), Elapsed32(tickMs, n.ackStartedTickMs));
    AcceptedIsIntact(w, item, received);
    var ack := AckMessage(n.nodeAddress, n.pendingTransactionId, n.pendingSequence);
    DecodeEncode(ack);
    var m := ItemIsFrame(w, item);
    DecodeEncode(m);
    assert GoodItem(w, item);
    r := EchoedReport(w, item, ack);
  }

  lemma CompletesOnlyWaiting(n: Node, e: Event)
    requires Is32(n) && e.tickMs < 0x1_0000_0000 && Step(n, e).1.kind == TransactionComplete
    ensures n.state == WaitAck && Decoded(e.frame).Some?
  {
    hide Decoded;
  }

  /** The only frames of the node's own ACK in the air are echoes of its reports. */
  lemma EchoedReport(w: World, item: Airborne, ack: Message) returns (r: Report)
    requires Inv(w) && item in w.air && Open(w.node)
    requires ack == AckMessage(w.node.nodeAddress, w.node.pendingTransactionId, w.node.pendingSequence)
    requires item.frame == Frame(ack)
    ensures Acknowledged(w, r) && item.origin == Echo(r)
  {
    assert GoodItem(w, item);
    DecodeEncode(ack);
    match item.origin {
      case Uplink(u) =>
        DecodeEncode(u.message);
        assert false;
      case Foreign =>
        assert false;
      case Echo(report) =>
        r := report;
        var echo := AckMessage(w.node.nodeAddress, r.message.transactionId, r.message.sequence);
        DecodeEncode(echo);
        assert GoodReport(w, r);
    }
  }

  /**
   * From initialization, over every interleaving: a completed transaction was acknowledged, by a
   * report of this very cycle unless Seq has wrapped since.
   */
  lemma AckSafety(address: uint8, startMs: uint32, moves: seq<Move>, w: World,
                  item: Airborne, received: seq<uint8>, tickMs: uint32) returns (r: Report)
    requires IsNodeAddress(address) && Reaches(Start(address, startMs), moves, w)
    requires Enabled(w, NodeReceives(item, received, tickMs))
    requires Moved(w, NodeReceives(item, received, tickMs)).1.kind == TransactionComplete
    ensures Acknowledged(w, r) && item.origin == Echo(r)
    ensures w.cycle < r.cycle + 0x1_0000 ==> r.cycle == w.cycle
  {
    hide Enabled, Moved, Reaches;
    ReachedIsGood(Start(address, startMs), moves, w);
    r := CompletionIsAcknowledged(w, item, received, tickMs);
    if w.cycle < r.cycle + 0x1_0000 {
      SameResidue(r.cycle, w.cycle);
    }
  }

  lemma SameResidue(j: nat, k: nat)
    requires j <= k < j + 0x1_0000 && j % 0x1_0000 == k % 0x1_0000
    ensures j == k
  {}

  /** For echoed acknowledgements the ID test is implied by the Seq test. */
  lemma IdTestIsRedundant(w: World, item: Airborne)
    requires Inv(w) && Open(w.node) && item in w.air && item.origin.Echo?
    requires item.origin.report.message.sequence == w.node.pendingSequence
    ensures item.origin.report.message.transactionId == w.node.pendingTransactionId
  {
    assert GoodItem(w, item);
    assert GoodReport(w, item.origin.report);
    LowByte(w.cycle);
    LowByte(item.origin.report.cycle);
  }

  /** Undisturbed, a report reaches the gateway and its echo is in the air. */
  lemma GatewayEchoes(w: World, sensor: SensorResult) returns (w': World, report: Report, ack: Message)
    requires Inv(w) && w.node.state == WaitTxResult && sensor.status <= SENSOR_VALUE_INVALID
    ensures Enabled(w, Transmit(sensor)) && report == ReportOf(w, sensor)
    ensures IsMessageValid(ack)
    ensures ack == AckMessage(w.node.nodeAddress, w.node.pendingTransactionId, w.node.pendingSequence)
    ensures var uplink := Airborne(Frame(report.message), Uplink(report));
      var w1 := Moved(w, Transmit(sensor)).0;
      && Enabled(w1, GatewayReceives(uplink, uplink.frame))
      && w' == Moved(w1, GatewayReceives(uplink, uplink.frame)).0
    ensures w'.node == w.node && Airborne(Frame(ack), Echo(report)) in w'.air
  {
    var n := w.node;
    OutcomesAreValid(Request(n.nodeAddress, n.pendingTransactionId, n.pendingSequence, sensor));
    report := ReportOf(w, sensor);
    ack := AckMessage(n.nodeAddress, n.pendingTransactionId, n.pendingSequence);
    DecodeEncode(report.message);
    hide Decoded, Frame;
    var uplink := Airborne(Frame(report.message), Uplink(report));
    var w1 := Moved(w, Transmit(sensor)).0;
    assert uplink in w1.air;
    w' := Moved(w1, GatewayReceives(uplink, uplink.frame)).0;
  }

  /** Heard before the deadline, the echo completes the transaction. */
  lemma EchoCompletes(w: World, echo: Airborne, ack: Message, txMs: uint32, rxMs: uint32)
    requires Is32(w.node) && w.node.state == WaitTxResult && IsNodeAddress(w.node.nodeAddress)
    requires IsMessageValid(ack)
    requires ack == AckMessage(w.node.nodeAddress, w.node.pendingTransactionId, w.node.pendingSequence)
    requires echo in w.air && echo.frame == Frame(ack)
    requires Elapsed32(rxMs, txMs) < ACK_TIMEOUT_MS
    ensures Enabled(w, Internal(TxSucceeded, txMs))
    ensures var w' := Moved(w, Internal(TxSucceeded, txMs)).0;
      && Enabled(w', NodeReceives(echo, echo.frame, rxMs))
      && Moved(w', NodeReceives(echo, echo.frame, rxMs)).1.kind == TransactionComplete
  {
    var w' := Moved(w, Internal(TxSucceeded, txMs)).0;
    var n := w'.node;
    assert n == w.node.(state := WaitAck, ackStartedTickMs := txMs);
    hide Decoded, Frame, IsMessageValid;
    OnlyTheAckCompletes(n, Event(FrameReceived, echo.frame, rxMs),
                        Elapsed32(rxMs, n.intervalStartedTickMs), Elapsed32(rxMs, n.ackStartedTickMs));
  }

  // ----- the stale acknowledgement -----

  /** An echo heard intact and in time is accepted exactly when its cycle agrees modulo 65536. */
  lemma EchoAcceptedIff(w: World, item: Airborne, tickMs: uint32)
    requires Inv(w) && w.node.state == WaitAck && item in w.air && item.origin.Echo?
    requires Elapsed32(tickMs, w.node.ackStartedTickMs) < ACK_TIMEOUT_MS
    ensures Enabled(w, NodeReceives(item, item.frame, tickMs))
    ensures Moved(w, NodeReceives(item, item.frame, tickMs)).1.kind == TransactionComplete <==>
      item.origin.report.cycle % 0x1_0000 == w.cycle % 0x1_0000
  {
    var n, r := w.node, item.origin.report;
    assert GoodItem(w, item) && GoodReport(w, r);
    OnlyTheAckCompletes(n, Event(FrameReceived, item.frame, tickMs),
                        Elapsed32(tickMs, n.intervalStartedTickMs), Elapsed32(tickMs, n.ackStartedTickMs));
    AckFramesAgree(n, r);
    LowByte(w.cycle);
    LowByte(r.cycle);
  }

  lemma AckFramesAgree(n: Node, r: Report)
    requires IsNodeAddress(n.nodeAddress)
    ensures var echo := AckMessage(n.nodeAddress, r.message.transactionId, r.message.sequence);
      var own := AckMessage(n.nodeAddress, n.pendingTransactionId, n.pendingSequence);
      Frame(echo) == Frame(own) <==>
        r.message.transactionId == n.pendingTransactionId && r.message.sequence == n.pendingSequence
  {
    var echo := AckMessage(n.nodeAddress, r.message.transactionId, r.message.sequence);
    var own := AckMessage(n.nodeAddress, n.pendingTransactionId, n.pendingSequence);
    hide Decoded, Frame;
    DecodeEncode(echo);
    DecodeEncode(own);
  }

  lemma {:induction false} ReachesOn(start: World, first: seq<Move>, middle: World, second: seq<Move>, end: World)
    requires Reaches(start, first, middle) && Reaches(middle, second, end)
    ensures Reaches(start, first + second, end)
    decreases |first|
  {
    hide Enabled, Moved;
    if first == [] {
      assert first + second == second;
    } else {
      assert (first + second)[1..] == first[1..] + second;
      ReachesOn(Moved(start, first[0]).0, first[1..], middle, second, end);
    }
  }

  lemma ReachesOne(start: World, move: Move)
    requires Enabled(start, move)
    ensures Reaches(start, [move], Moved(start, move).0)
  {
    hide Enabled, Moved;
    assert [move][1..] == [];
    assert Reaches(Moved(start, move).0, [], Moved(start, move).0);
  }

  /** What a cycle without a transmission leaves alone. */
  predicate Later(w: World, v: World, cycles: nat) {
    && v.air == w.air && v.sent == w.sent && v.heard == w.heard
    && v.cycle == w.cycle + cycles && v.node.nodeAddress == w.node.nodeAddress
  }

  lemma FailedCycle(w: World) returns (moves: seq<Move>, v: World)
    requires Is32(w.node) && w.node.state == WaitInterval
    ensures Reaches(w, moves, v)
    ensures Is32(v.node) && v.node.state == WaitInterval && Later(w, v, 1)
  {
    var wake, fail := Internal(IntervalElapsed, 0), Internal(TxFailed, 0);
    var awake := Moved(w, wake).0;
    v := Moved(awake, fail).0;
    moves := [wake] + [fail];
    ReachesOne(w, wake);
    ReachesOne(awake, fail);
    ReachesOn(w, [wake], awake, [fail], v);
  }

  lemma {:induction false} FailedCycles(w: World, count: nat) returns (moves: seq<Move>, v: World)
    requires Is32(w.node) && w.node.state == WaitInterval
    ensures Reaches(w, moves, v)
    ensures Is32(v.node) && v.node.state == WaitInterval && Later(w, v, count)
    decreases count
  {
    hide Reaches;
    if count == 0 {
      moves, v := [], w;
      assert Reaches(w, [], w) by { Nowhere(w); }
    } else {
      var first, middle := FailedCycle(w);
      var rest, last := FailedCycles(middle, count - 1);
      moves, v := first + rest, last;
      ReachesOn(w, first, middle, rest, last);
    }
  }

  lemma Nowhere(w: World)
    ensures Reaches(w, [], w)
  {}

  /** An uplink that is heard leaves its echo in the air. */
  lemma UplinkHeard(w: World, sensor: SensorResult) returns (moves: seq<Move>, v: World, echo: Airborne)
    requires Inv(w) && w.node.state == WaitTxResult && sensor.status <= SENSOR_VALUE_INVALID
    ensures Reaches(w, moves, v)
    ensures v.node == w.node && v.cycle == w.cycle
    ensures echo in v.air && echo.origin.Echo? && echo.origin.report.cycle == w.cycle
    ensures forall r :: r in v.heard ==> r in w.heard || r.cycle == w.cycle
  {
    var answered, report, ack := GatewayEchoes(w, sensor);
    hide Frame, Decoded, IsMessageValid;
    var transmit := Transmit(sensor);
    var uplink := Airborne(Frame(report.message), Uplink(report));
    var hear := GatewayReceives(uplink, uplink.frame);
    var sent := Moved(w, transmit).0;
    v, echo := answered, Airborne(Frame(ack), Echo(report));
    ReachesOne(w, transmit);
    ReachesOne(sent, hear);
    ReachesOn(w, [transmit], sent, [hear], v);
    moves := [transmit] + [hear];
  }

  lemma Wakes(w: World, tickMs: uint32) returns (v: World)
    requires Inv(w) && w.node.state == WaitInterval
    ensures Reaches(w, [Internal(IntervalElapsed, tickMs)], v)
    ensures Inv(v) && v.node.state == WaitTxResult && Later(w, v, 0)
  {
    var wake := Internal(IntervalElapsed, tickMs);
    v := Moved(w, wake).0;
    ReachesOne(w, wake);
    MoveKeeps(w, wake);
  }

  lemma Fails(w: World, tickMs: uint32) returns (v: World)
    requires Is32(w.node) && w.node.state == WaitTxResult
    ensures Reaches(w, [Internal(TxFailed, tickMs)], v)
    ensures Is32(v.node) && v.node.state == WaitInterval && Later(w, v, 1)
  {
    var fail := Internal(TxFailed, tickMs);
    v := Moved(w, fail).0;
    ReachesOne(w, fail);
  }

  /** The first cycle: its uplink is heard, its echo stays in the air, and the transmission is taken to have failed. */
  lemma EchoLeftBehind(address: uint8, startMs: uint32, sensor: SensorResult)
    returns (moves: seq<Move>, v: World, echo: Airborne)
    requires IsNodeAddress(address) && sensor.status <= SENSOR_VALUE_INVALID
    ensures Reaches(Start(address, startMs), moves, v)
    ensures Is32(v.node) && v.node.state == WaitInterval && v.cycle == 1
    ensures echo in v.air && echo.origin.Echo? && echo.origin.report.cycle == 0
    ensures forall r :: r in v.heard ==> r.cycle == 0
  {
    var start := Start(address, startMs);
    assert Inv(start);
    hide Reaches, Inv;
    var awake := Wakes(start, startMs);
    var uplink, answered, heard := UplinkHeard(awake, sensor);
    assert Is32(awake.node) by { InvIs32(awake); }
    v := Fails(answered, startMs);
    echo := heard;
    var wake, fail := [Internal(IntervalElapsed, startMs)], [Internal(TxFailed, startMs)];
    ReachesOn(start, wake, awake, uplink, answered);
    ReachesOn(start, wake + uplink, answered, fail, v);
    moves := wake + uplink + fail;
  }

  lemma InvIs32(w: World)
    requires Inv(w)
    ensures Is32(w.node)
  {}

  /** From rest to the wait for an ACK. */
  lemma OpensCycle(w: World) returns (moves: seq<Move>, v: World)
    requires Is32(w.node) && w.node.state == WaitInterval
    ensures Reaches(w, moves, v)
    ensures v.node.state == WaitAck && v.node.ackStartedTickMs == 0 && Later(w, v, 0)
  {
    var wake, done := Internal(IntervalElapsed, 0), Internal(TxSucceeded, 0);
    var awake := Moved(w, wake).0;
    v := Moved(awake, done).0;
    moves := [wake] + [done];
    ReachesOne(w, wake);
    ReachesOne(awake, done);
    ReachesOn(w, [wake], awake, [done], v);
  }

  /** After 65536 failed cycles the echo of the first completes the present one, unheard as that is. */
  lemma StaleAckAccepted(address: uint8, startMs: uint32, sensor: SensorResult)
    returns (moves: seq<Move>, w: World, item: Airborne)
    requires IsNodeAddress(address) && sensor.status <= SENSOR_VALUE_INVALID
    ensures Reaches(Start(address, startMs), moves, w)
    ensures item in w.air && item.origin.Echo? && item.origin.report.cycle == 0 && w.cycle == 0x1_0000
    ensures forall r :: r in w.heard ==> r.cycle != w.cycle
    ensures Enabled(w, NodeReceives(item, item.frame, 0))
    ensures Moved(w, NodeReceives(item, item.frame, 0)).1.kind == TransactionComplete
  {
    var start := Start(address, startMs);
    assert Inv(start);
    hide Reaches, Inv, Enabled, Moved;
    var first, one, echo := EchoLeftBehind(address, startMs, sensor);
    var more, idle := FailedCycles(one, 0xFFFF);
    var last, open := OpensCycle(idle);
    ReachesOn(start, first, one, more, idle);
    ReachesOn(start, first + more, idle, last, open);
    moves, w, item := first + more + last, open, echo;
    ReachedIsGood(start, moves, w);
    EchoAcceptedIff(w, item, 0);
  }
}
