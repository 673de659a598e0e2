/** The node's stop-and-wait transaction machine. */
module NodeState {
  import opened Words
  import opened NodePacket

  const ACK_TIMEOUT_MS: nat := 1000
  const INTERVAL_MS: nat := 5000

  datatype State = WaitInterval | WaitTxResult | WaitAck

  datatype EventType = FrameReceived | TxSucceeded | TxFailed | TimerTick | IntervalElapsed

  /** A frame event carries its bytes; a null frame pointer is the empty frame. */
  datatype Event = Event(kind: EventType, frame: seq<uint8>, tickMs: nat)

  datatype ActionType = None | ReadSensor | TransactionComplete | AckTimeout | TxFailure

  datatype IgnoreReason =
    | NotIgnored | InvalidPacket | WrongDestination | UnexpectedType | AckMismatch | UnexpectedEvent

  datatype Action = Action(kind: ActionType, ignoreReason: IgnoreReason, transactionId: uint8, sequence: uint16)

  const NO_ACTION: Action := Action(ActionType.None, NotIgnored, 0, 0)

  /** A snapshot of the context. */
  datatype Node = Node(
    state: State,
    nodeAddress: uint8,
    responseSequence: uint16,
    pendingTransactionId: uint8,
    pendingSequence: uint16,
    ackStartedTickMs: nat,
    intervalStartedTickMs: nat,
    transactionId: uint8)

  function Initial(nodeAddress: uint8, tickMs: nat): Node {
    Node(WaitInterval, nodeAddress, 0, 0, 0, 0, tickMs, 0)
  }

  // ----- one event, given how much time has passed -----

  function Complete(n: Node, kind: ActionType, tickMs: nat): (Node, Action) {
    (n.(responseSequence := Increment16(n.responseSequence),
        state := WaitInterval,
        intervalStartedTickMs := tickMs,
        transactionId := Increment8(n.transactionId),
        pendingTransactionId := 0,
        pendingSequence := 0,
        ackStartedTickMs := 0),
     NO_ACTION.(kind := kind))
  }

  function Ignore(n: Node, reason: IgnoreReason): (Node, Action) {
    (n, NO_ACTION.(ignoreReason := reason))
  }

  function OnWaitInterval(n: Node, e: Event, elapsedMs: nat): (Node, Action) {
    if e.kind != TimerTick && e.kind != IntervalElapsed then Ignore(n, UnexpectedEvent)
    else if e.kind == TimerTick && elapsedMs < INTERVAL_MS then (n, NO_ACTION)
    else
      (n.(pendingTransactionId := n.transactionId, pendingSequence := n.responseSequence, state := WaitTxResult),
       Action(ReadSensor, NotIgnored, n.transactionId, n.responseSequence))
  }

  function OnWaitTxResult(n: Node, e: Event): (Node, Action) {
    if e.kind == TxSucceeded then (n.(state := WaitAck, ackStartedTickMs := e.tickMs), NO_ACTION)
    else if e.kind == TxFailed then Complete(n, TxFailure, e.tickMs)
    else Ignore(n, UnexpectedEvent)
  }

  function OnWaitAck(n: Node, e: Event, elapsedMs: nat): (Node, Action) {
    if elapsedMs >= ACK_TIMEOUT_MS then Complete(n, AckTimeout, e.tickMs)
    else if e.kind == TimerTick then (n, NO_ACTION)
    else if e.kind != FrameReceived then Ignore(n, UnexpectedEvent)
    else match Decoded(e.frame)
      case None => Ignore(n, InvalidPacket)
      case Some(packet) =>
        if packet.destination != n.nodeAddress then Ignore(n, WrongDestination)
        else if packet.kind != TYPE_ACK then Ignore(n, UnexpectedType)
        else if packet.transactionId != n.pendingTransactionId || packet.sequence != n.pendingSequence then
          Ignore(n, AckMismatch)
        else Complete(n, TransactionComplete, e.tickMs)
  }

  function StepWith(n: Node, e: Event, sinceInterval: nat, sinceTx: nat): (Node, Action) {
    match n.state
    case WaitInterval => OnWaitInterval(n, e, sinceInterval)
    case WaitTxResult => OnWaitTxResult(n, e)
    case WaitAck => OnWaitAck(n, e, sinceTx)
  }

  // ----- the 32-bit clock of the source -----

  predicate Is32(n: Node) {
    n.ackStartedTickMs < 0x1_0000_0000 && n.intervalStartedTickMs < 0x1_0000_0000
  }

  function Step(n: Node, e: Event): (r: (Node, Action))
    requires Is32(n) && e.tickMs < 0x1_0000_0000
    ensures Is32(r.0)
  {
    StepWith(n, e, Elapsed32(e.tickMs, n.intervalStartedTickMs), Elapsed32(e.tickMs, n.ackStartedTickMs))
  }

  // ----- the context and its handlers -----

  class Context {
    var state: State
    var nodeAddress: uint8
    var responseSequence: uint16
    var pendingTransactionId: uint8
    var pendingSequence: uint16
    var ackStartedTickMs: uint32
    var intervalStartedTickMs: uint32
    var transactionId: uint8

    function Value(): (n: Node)
      reads this
      ensures Is32(n)
    {
      Node(state, nodeAddress, responseSequence, pendingTransactionId, pendingSequence,
           ackStartedTickMs, intervalStartedTickMs, transactionId)
    }

    /** A fresh context holds what static storage does: zeroes. */
    constructor ()
      ensures Value() == Initial(0, 0)
    {
      state := WaitInterval;
      nodeAddress, transactionId, pendingTransactionId := 0, 0, 0;
      responseSequence, pendingSequence := 0, 0;
      ackStartedTickMs, intervalStartedTickMs := 0, 0;
    }

    method Initialize(address: uint8, tickMs: uint32) returns (ok: bool)
      modifies this
      ensures ok <==> IsNodeAddress(address)
      ensures Value() == if ok then Initial(address, tickMs) else old(Value())
    {
      if !IsNodeAddress(address) {
        return false;
      }
      state := WaitInterval;
      nodeAddress := address;
      responseSequence, transactionId := 0, 0;
      pendingTransactionId, pendingSequence := 0, 0;
      ackStartedTickMs := 0;
      intervalStartedTickMs := tickMs;
      return true;
    }

    method CompleteTransaction(kind: ActionType, tickMs: uint32) returns (action: Action)
      modifies this
      ensures (Value(), action) == Complete(old(Value()), kind, tickMs)
    {
      responseSequence := Increment16(responseSequence);
      state := WaitInterval;
      intervalStartedTickMs := tickMs;
      transactionId := Increment8(transactionId);
      pendingTransactionId := 0;
      pendingSequence := 0;
      ackStartedTickMs := 0;
      action := NO_ACTION.(kind := kind);
    }

    method HandleWaitInterval(kind: EventType, tickMs: uint32, ghost bytes: seq<uint8>) returns (action: Action)
      requires state == WaitInterval
      modifies this
      ensures (Value(), action) == Step(old(Value()), Event(kind, bytes, tickMs))
    {
      action := NO_ACTION;
      if kind != TimerTick && kind != IntervalElapsed {
        action := action.(ignoreReason := UnexpectedEvent);
        return;
      }
      if kind == TimerTick && Elapsed32(tickMs, intervalStartedTickMs) < INTERVAL_MS {
        return;
      }
      pendingTransactionId := transactionId;
      pendingSequence := responseSequence;
      state := WaitTxResult;
      action := action.(transactionId := pendingTransactionId);
      action := action.(sequence := pendingSequence);
      action := action.(kind := ReadSensor);
    }

    method HandleWaitTxResult(kind: EventType, tickMs: uint32, ghost bytes: seq<uint8>) returns (action: Action)
      requires state == WaitTxResult
      modifies this
      ensures (Value(), action) == Step(old(Value()), Event(kind, bytes, tickMs))
    {
      action := NO_ACTION;
      if kind == TxSucceeded {
        state := WaitAck;
        ackStartedTickMs := tickMs;
        return;
      }
      if kind == TxFailed {
        action := CompleteTransaction(TxFailure, tickMs);
        return;
      }
      action := action.(ignoreReason := UnexpectedEvent);
    }

    method HandleWaitAck(kind: EventType, frame: array?<uint8>, frameLength: nat, tickMs: uint32)
      returns (action: Action)
      requires state == WaitAck
      requires frame != null ==> frameLength <= frame.Length
      modifies this
      ensures (Value(), action) ==
        Step(old(Value()), Event(kind, if frame == null then [] else frame[..frameLength], tickMs))
    {
      var elapsedMs := Elapsed32(tickMs, ackStartedTickMs);
      action := NO_ACTION;
      if elapsedMs >= ACK_TIMEOUT_MS {
        action := CompleteTransaction(AckTimeout, tickMs);
        return;
      }
      if kind == TimerTick {
        return;
      }
      if kind != FrameReceived {
        action := action.(ignoreReason := UnexpectedEvent);
        return;
      }
      var packet := Decode(frame, frameLength);
      if packet.None? {
        action := action.(ignoreReason := InvalidPacket);
        return;
      }
      if packet.value.destination != nodeAddress {
        action := action.(ignoreReason := WrongDestination);
        return;
      }
      if packet.value.kind != TYPE_ACK {
        action := action.(ignoreReason := UnexpectedType);
        return;
      }
      if packet.value.transactionId != pendingTransactionId || packet.value.sequence != pendingSequence {
        action := action.(ignoreReason := AckMismatch);
        return;
      }
      action := CompleteTransaction(TransactionComplete, tickMs);
    }

    method HandleEvent(kind: EventType, frame: array?<uint8>, frameLength: nat, tickMs: uint32)
      returns (action: Action)
      requires frame != null ==> frameLength <= frame.Length
      modifies this
      ensures (Value(), action) ==
        Step(old(Value()), Event(kind, if frame == null then [] else frame[..frameLength], tickMs))
    {
      ghost var bytes := if frame == null then [] else frame[..frameLength];
      match state {
        case WaitInterval => action := HandleWaitInterval(kind, tickMs, bytes);
        case WaitTxResult => action := HandleWaitTxResult(kind, tickMs, bytes);
        case WaitAck => action := HandleWaitAck(kind, frame, frameLength, tickMs);
      }
    }
  }
}
