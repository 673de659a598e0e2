/** Whole runs of the transaction machine: the order of its actions, and its 32-bit clock. */
module NodeStateProofs {
  import opened Wrappers
  import opened Words
  import opened NodePacket
  import opened NodePacketProofs
  import opened NodeState

  predicate Ticks32(es: seq<Event>) {
    forall i :: 0 <= i < |es| ==> es[i].tickMs < 0x1_0000_0000
  }

  function Run(n: Node, es: seq<Event>): (r: (Node, seq<Action>))
    requires Is32(n) && Ticks32(es)
    ensures Is32(r.0) && |r.1| == |es|
  {
    if es == [] then (n, [])
    else
      var (m, actions) := Run(n, es[..|es| - 1]);
      var (m', action) := Step(m, es[|es| - 1]);
      (m', actions + [action])
  }

  /** The actions that ask for work or end a cycle. */
  function Requests(actions: seq<Action>): seq<Action> {
    if actions == [] then []
    else
      var front, last := Requests(actions[..|actions| - 1]), actions[|actions| - 1];
      if last.kind == ActionType.None then front else front + [last]
  }

  // ----- the trace grammar -----

  predicate Terminal(kind: ActionType) {
    kind in {TransactionComplete, AckTimeout, TxFailure}
  }

  predicate Open(n: Node) {
    n.state != WaitInterval
  }

  /** (READ_SENSOR terminal)*, the k-th READ_SENSOR numbered k modulo the widths of ID and Seq. */
  predicate Grammar(requests: seq<Action>) {
    forall i :: 0 <= i < |requests| ==>
      if i % 2 == 0 then
        && requests[i].kind == ReadSensor
        && requests[i].transactionId == (i / 2) % 0x100
        && requests[i].sequence == (i / 2) % 0x1_0000
      else Terminal(requests[i].kind)
  }

  /** The counters number the finished cycles, and the pending pair copies them while a cycle is open. */
  predicate Counts(n: Node, requests: seq<Action>) {
    var cycles := |requests| / 2;
    && (|requests| % 2 == 1 <==> Open(n))
    && n.transactionId == cycles % 0x100
    && n.responseSequence == cycles % 0x1_0000
    && n.pendingTransactionId == (if Open(n) then n.transactionId else 0)
    && n.pendingSequence == (if Open(n) then n.responseSequence else 0)
    && (n.state != WaitAck ==> n.ackStartedTickMs == 0)
  }

  lemma IncrementCounts(cycles: nat)
    ensures Increment8(cycles % 0x100) == (cycles + 1) % 0x100
    ensures Increment16(cycles % 0x1_0000) == (cycles + 1) % 0x1_0000
  {}

  lemma StepGrammar(n: Node, e: Event, requests: seq<Action>, sinceInterval: nat, sinceTx: nat)
    requires Grammar(requests) && Counts(n, requests)
    ensures var (m, action) := StepWith(n, e, sinceInterval, sinceTx);
      var requests' := if action.kind == ActionType.None then requests else requests + [action];
      Grammar(requests') && Counts(m, requests') && m.nodeAddress == n.nodeAddress
  {
    hide Decoded;
    IncrementCounts(|requests| / 2);
  }

  /** Over every event sequence the requests follow the grammar, and a request is open unless waiting. */
  lemma {:induction false} TraceGrammar(address: uint8, tickMs: uint32, es: seq<Event>)
    requires Ticks32(es)
    ensures var (n, actions) := Run(Initial(address, tickMs), es);
      Grammar(Requests(actions)) && Counts(n, Requests(actions)) && n.nodeAddress == address
  {
    if es != [] {
      hide Grammar, Counts, StepWith;
      var front, e := es[..|es| - 1], es[|es| - 1];
      TraceGrammar(address, tickMs, front);
      var (m, actions) := Run(Initial(address, tickMs), front);
      var action := Step(m, e).1;
      assert (actions + [action])[..|actions|] == actions;
      StepGrammar(m, e, Requests(actions),
                  Elapsed32(e.tickMs, m.intervalStartedTickMs), Elapsed32(e.tickMs, m.ackStartedTickMs));
    } else {
      assert Requests([]) == [];
    }
  }

  lemma LowByte(k: nat)
    ensures Low(k % 0x1_0000) == k % 0x100
  {
    var q := k / 0x1_0000;
    assert k == q * 0x100 * 0x100 + k % 0x1_0000;
    SameByte(k % 0x1_0000, q * 0x100);
  }

  lemma SameByte(n: nat, m: nat)
    ensures (m * 0x100 + n) % 0x100 == n % 0x100
  {}

  /** In every reachable state the ID is the low byte of Seq. */
  lemma IdIsLowByteOfSeq(n: Node, requests: seq<Action>)
    requires Counts(n, requests)
    ensures n.transactionId == Low(n.responseSequence)
    ensures n.pendingTransactionId == Low(n.pendingSequence)
  {
    LowByte(|requests| / 2);
  }

  // ----- which frame ends a cycle -----

  /** One byte string, and no other, completes a waiting transaction, and only before the deadline. */
  lemma OnlyTheAckCompletes(n: Node, e: Event, sinceInterval: nat, sinceTx: nat)
    requires n.state == WaitAck && IsNodeAddress(n.nodeAddress)
    ensures StepWith(n, e, sinceInterval, sinceTx).1.kind == TransactionComplete <==>
      && sinceTx < ACK_TIMEOUT_MS
      && e.kind == FrameReceived
      && e.frame == Frame(AckMessage(n.nodeAddress, n.pendingTransactionId, n.pendingSequence))
  {
    hide Decoded, Frame;
    var ack := AckMessage(n.nodeAddress, n.pendingTransactionId, n.pendingSequence);
    DecodeEncode(ack);
    assert Canonical(ack) == ack;
    if Decoded(e.frame).Some? {
      EncodeDecode(e.frame);
      var m := Decoded(e.frame).value;
      assert m.kind == TYPE_ACK ==> m.payload == EmptyPayload();
    }
  }

  // ----- what every event does -----

  /** At rest a wake opens a cycle, and a timer tick does exactly from 5000 ms on. */
  lemma OpensCycleIff(n: Node, e: Event)
    requires Is32(n) && e.tickMs < 0x1_0000_0000 && n.state == WaitInterval
    ensures var (m, action) := Step(n, e);
      var opens := e.kind == IntervalElapsed
                   || (e.kind == TimerTick && (e.tickMs - n.intervalStartedTickMs) % 0x1_0000_0000 >= 5000);
      && (action.kind == ReadSensor <==> opens)
      && (m.state == (if opens then WaitTxResult else WaitInterval))
      && (!opens ==> m == n && action.kind == ActionType.None)
      && action.ignoreReason == (if e.kind == TimerTick || opens then NotIgnored else UnexpectedEvent)
  {}

  /** While a result is awaited only the result counts. */
  lemma ResultIff(n: Node, e: Event)
    requires Is32(n) && e.tickMs < 0x1_0000_0000 && n.state == WaitTxResult
    ensures var (m, action) := Step(n, e);
      && (m.state == WaitAck <==> e.kind == TxSucceeded)
      && (m.state == WaitAck ==> m == n.(state := WaitAck, ackStartedTickMs := e.tickMs))
      && (action.kind == TxFailure <==> e.kind == TxFailed)
      && (e.kind != TxSucceeded && e.kind != TxFailed ==> m == n && action.ignoreReason == UnexpectedEvent)
  {}

  /** The end of a cycle advances both numbers, clears what was pending and starts the interval. */
  lemma EndOfCycle(n: Node, e: Event)
    requires Is32(n) && e.tickMs < 0x1_0000_0000 && Terminal(Step(n, e).1.kind)
    ensures Step(n, e).0 ==
      Node(WaitInterval, n.nodeAddress, (n.responseSequence + 1) % 0x1_0000, 0, 0, 0, e.tickMs,
           (n.transactionId + 1) % 0x100)
  {
    hide Decoded;
  }

  /** Before the deadline each reason to ignore an event is given exactly for what it says. */
  lemma IgnoredBecause(n: Node, e: Event)
    requires Is32(n) && e.tickMs < 0x1_0000_0000 && n.state == WaitAck
    requires Elapsed32(e.tickMs, n.ackStartedTickMs) < 1000
    ensures var reason := Step(n, e).1.ignoreReason;
      && (reason == UnexpectedEvent <==> e.kind != FrameReceived && e.kind != TimerTick)
      && (reason == InvalidPacket <==> e.kind == FrameReceived && Decoded(e.frame).None?)
      && (e.kind == FrameReceived && Decoded(e.frame).Some? ==>
            var packet := Decoded(e.frame).value;
            && (reason == WrongDestination <==> packet.destination != n.nodeAddress)
            && (reason == UnexpectedType <==> packet.destination == n.nodeAddress && packet.kind != 3)
            && (reason == AckMismatch <==>
                  && packet.destination == n.nodeAddress && packet.kind == 3
                  && (packet.transactionId != n.pendingTransactionId || packet.sequence != n.pendingSequence)))
    ensures Step(n, e).1.ignoreReason != NotIgnored ==> Step(n, e).0 == n && Step(n, e).1.kind == ActionType.None
  {
    hide Decoded;
  }

  // ----- the 32-bit clock against a clock that never wraps -----

  const WRAP := 0x1_0000_0000

  predicate Started(u: Node, now: nat) {
    u.ackStartedTickMs <= now && u.intervalStartedTickMs <= now
  }

  /** The same machine with unbounded time. */
  function StepTrue(u: Node, e: Event): (Node, Action)
    requires Started(u, e.tickMs)
  {
    StepWith(u, e, e.tickMs - u.intervalStartedTickMs, e.tickMs - u.ackStartedTickMs)
  }

  function WrapNode(u: Node): (n: Node)
    ensures Is32(n)
  {
    u.(ackStartedTickMs := u.ackStartedTickMs % WRAP, intervalStartedTickMs := u.intervalStartedTickMs % WRAP)
  }

  function WrapEvent(e: Event): Event {
    e.(tickMs := e.tickMs % WRAP)
  }

  lemma ElapsedWraps(now: nat, start: nat)
    requires start <= now
    ensures Elapsed32(now % WRAP, start % WRAP) == (now - start) % WRAP
  {
    var a, b := now / WRAP, start / WRAP;
    assert now % WRAP - start % WRAP == now - start - (a - b) * WRAP;
    ModShift(now - start, a - b);
  }

  lemma ModShift(x: int, k: int)
    ensures (x - k * WRAP) % WRAP == x % WRAP
  {}

  /** The elapsed times the machine consults stay below one wrap. */
  predicate InRange(u: Node, e: Event) {
    && (u.state == WaitAck ==> e.tickMs - u.ackStartedTickMs < WRAP)
    && (u.state == WaitInterval && e.kind == TimerTick ==> e.tickMs - u.intervalStartedTickMs < WRAP)
  }

  lemma WaitIntervalRefines(u: Node, e: Event)
    requires u.state == WaitInterval && Started(u, e.tickMs) && InRange(u, e)
    ensures Step(WrapNode(u), WrapEvent(e)) == (WrapNode(StepTrue(u, e).0), StepTrue(u, e).1)
  {
    ElapsedWraps(e.tickMs, u.intervalStartedTickMs);
  }

  lemma WaitTxResultRefines(u: Node, e: Event)
    requires u.state == WaitTxResult && Started(u, e.tickMs)
    ensures Step(WrapNode(u), WrapEvent(e)) == (WrapNode(StepTrue(u, e).0), StepTrue(u, e).1)
  {}

  lemma CompleteRefines(u: Node, kind: ActionType, tickMs: nat)
    ensures Complete(WrapNode(u), kind, tickMs % WRAP) ==
      (WrapNode(Complete(u, kind, tickMs).0), Complete(u, kind, tickMs).1)
  {}

  lemma WaitAckRefines(u: Node, e: Event)
    requires u.state == WaitAck && Started(u, e.tickMs) && InRange(u, e)
    ensures Step(WrapNode(u), WrapEvent(e)) == (WrapNode(StepTrue(u, e).0), StepTrue(u, e).1)
  {
    hide Decoded, Complete;
    ElapsedWraps(e.tickMs, u.ackStartedTickMs);
    CompleteRefines(u, AckTimeout, e.tickMs);
    CompleteRefines(u, TransactionComplete, e.tickMs);
  }

  lemma StepRefines(u: Node, e: Event)
    requires Started(u, e.tickMs) && InRange(u, e)
    ensures Step(WrapNode(u), WrapEvent(e)) == (WrapNode(StepTrue(u, e).0), StepTrue(u, e).1)
  {
    hide Step, StepTrue, WrapNode, WrapEvent;
    match u.state
    case WaitInterval => WaitIntervalRefines(u, e);
    case WaitTxResult => WaitTxResultRefines(u, e);
    case WaitAck => WaitAckRefines(u, e);
  }

  function WrapEvents(es: seq<Event>): (r: seq<Event>)
    ensures |r| == |es| && Ticks32(r)
  {
    seq(|es|, i requires 0 <= i < |es| => WrapEvent(es[i]))
  }

  /** Where unbounded time stands after the events. */
  function Now(start: nat, es: seq<Event>): nat {
    if es == [] then start else es[|es| - 1].tickMs
  }

  /** Waiting for an ACK, the last event came before the deadline. */
  predicate Clocked(u: Node, now: nat) {
    Started(u, now) && (u.state == WaitAck ==> now - u.ackStartedTickMs < ACK_TIMEOUT_MS)
  }

  /** One event of a paced run: time does not go back, and no gap spans a wrap. */
  predicate Follows(u: Node, now: nat, e: Event) {
    && now <= e.tickMs
    && (u.state == WaitAck ==> e.tickMs - now <= WRAP - ACK_TIMEOUT_MS)
    && (u.state == WaitInterval && e.kind == TimerTick ==> e.tickMs - u.intervalStartedTickMs < WRAP)
  }

  lemma FollowsInRange(u: Node, now: nat, e: Event)
    requires Clocked(u, now) && Follows(u, now, e)
    ensures Started(u, e.tickMs) && InRange(u, e)
    ensures Clocked(StepTrue(u, e).0, e.tickMs)
  {
    hide Decoded;
  }

  /** The run on unbounded time, as long as every event follows the one before. */
  function PacedRun(u: Node, start: nat, es: seq<Event>): (r: Option<(Node, seq<Action>)>)
    requires Clocked(u, start)
    ensures r.Some? ==> Clocked(r.value.0, Now(start, es)) && |r.value.1| == |es|
  {
    if es == [] then Some((u, []))
    else
      var front, e := es[..|es| - 1], es[|es| - 1];
      match PacedRun(u, start, front)
      case None => Option.None
      case Some((m, actions)) =>
        if !Follows(m, Now(start, front), e) then Option.None
        else
          FollowsInRange(m, Now(start, front), e);
          var (m', action) := StepTrue(m, e);
          Some((m', actions + [action]))
  }

  /** The source's machine takes the same actions as the machine with unbounded time. */
  lemma {:induction false} RunRefines(u: Node, start: nat, es: seq<Event>)
    requires Clocked(u, start) && PacedRun(u, start, es).Some?
    ensures var (end, actions) := PacedRun(u, start, es).value;
      Run(WrapNode(u), WrapEvents(es)) == (WrapNode(end), actions)
  {
    if es != [] {
      hide StepTrue, Step, WrapNode, WrapEvent;
      var front, e := es[..|es| - 1], es[|es| - 1];
      RunRefines(u, start, front);
      var m := PacedRun(u, start, front).value.0;
      FollowsInRange(m, Now(start, front), e);
      StepRefines(m, e);
      assert WrapEvents(es)[..|es| - 1] == WrapEvents(front);
    }
  }

  /**
   * Any one WAIT_ACK event, however late: the source agrees with true time exactly when the true
   * elapsed time is not past the deadline with a residue modulo 2^32 below it.
   */
  lemma DeadlineExactly(u: Node, e: Event)
    requires u.state == WaitAck && Started(u, e.tickMs)
    ensures var elapsed := e.tickMs - u.ackStartedTickMs;
      Step(WrapNode(u), WrapEvent(e)).1 == StepTrue(u, e).1 <==>
      elapsed < ACK_TIMEOUT_MS || elapsed % WRAP >= ACK_TIMEOUT_MS
  {
    hide Decoded;
    ElapsedWraps(e.tickMs, u.ackStartedTickMs);
  }

  /** In a paced run the first event at or past the deadline times out, whatever its type. */
  lemma DeadlineWins(u: Node, start: nat, es: seq<Event>, e: Event)
    requires Clocked(u, start) && PacedRun(u, start, es).Some?
    requires var end := PacedRun(u, start, es).value.0;
      end.state == WaitAck && Follows(end, Now(start, es), e)
    ensures var txCompletedMs := PacedRun(u, start, es).value.0.ackStartedTickMs;
      var n := Run(WrapNode(u), WrapEvents(es)).0;
      var (m, action) := Step(n, WrapEvent(e));
      && (action.kind == AckTimeout <==> e.tickMs - txCompletedMs >= ACK_TIMEOUT_MS)
      && (m.state == WaitAck ==> m.ackStartedTickMs == n.ackStartedTickMs)
  {
    hide Decoded, PacedRun, Run;
    var end := PacedRun(u, start, es).value.0;
    RunRefines(u, start, es);
    FollowsInRange(end, Now(start, es), e);
    StepRefines(end, e);
  }

  // ----- waiting ends -----

  /**
   * Events on the 32-bit clock, each later than the one before by no more than the pace the deadline
   * needs, none of which ends the wait.
   */
  predicate Waits(n: Node, now: uint32, es: seq<Event>)
    requires Is32(n)
    decreases |es|
  {
    && n.state == WaitAck
    && (es == [] ||
         (&& es[0].tickMs < WRAP
          && 0 < Elapsed32(es[0].tickMs, now) <= WRAP - ACK_TIMEOUT_MS
          && Waits(Step(n, es[0]).0, es[0].tickMs, es[1..])))
  }

  lemma ElapsedAdds(start: uint32, now: uint32, later: uint32)
    requires Elapsed32(now, start) + Elapsed32(later, now) < WRAP
    ensures Elapsed32(later, start) == Elapsed32(now, start) + Elapsed32(later, now)
  {
    ModShift(later - now, (later - now) / WRAP);
  }

  /** An event that leaves the machine waiting leaves it as it is, and came before the deadline. */
  lemma StillWaiting(n: Node, e: Event)
    requires Is32(n) && e.tickMs < WRAP && n.state == WaitAck
    requires Step(n, e).0.state == WaitAck
    ensures Step(n, e).0 == n && Elapsed32(e.tickMs, n.ackStartedTickMs) < ACK_TIMEOUT_MS
  {
    hide Decoded;
  }

  /** Fewer than a thousand such events can be handled before the wait ends. */
  lemma {:induction false} WaitingIsBounded(n: Node, now: uint32, es: seq<Event>)
    requires Is32(n) && Elapsed32(now, n.ackStartedTickMs) < ACK_TIMEOUT_MS && Waits(n, now, es)
    ensures |es| < ACK_TIMEOUT_MS - Elapsed32(now, n.ackStartedTickMs)
    decreases |es|
  {
    if es != [] {
      hide Step, Elapsed32;
      StillWaiting(n, es[0]);
      ElapsedAdds(n.ackStartedTickMs, now, es[0].tickMs);
      WaitingIsBounded(n, es[0].tickMs, es[1..]);
    }
  }

  /** Timer ticks a whole wrap of the clock apart. */
  function WrapTicks(start: nat, count: nat): (es: seq<Event>)
    ensures |es| == count
  {
    seq(count, i requires 0 <= i < count => Event(TimerTick, [], start + (i + 1) * WRAP))
  }

  lemma WrapsAway(start: nat, k: nat)
    ensures (start + k * WRAP) % WRAP == start % WRAP
  {
    ModShift(start + k * WRAP, k);
  }

  lemma TickAtStart(n: Node)
    requires Is32(n) && n.state == WaitAck
    ensures Step(n, Event(TimerTick, [], n.ackStartedTickMs)).0 == n
  {}

  lemma TickWraps(u: Node, k: nat)
    ensures WrapEvent(Event(TimerTick, [], u.ackStartedTickMs + k * WRAP)) ==
      Event(TimerTick, [], WrapNode(u).ackStartedTickMs)
  {
    WrapsAway(u.ackStartedTickMs, k);
  }

  lemma WrapTicksAscend(start: nat, count: nat, i: nat)
    requires 0 < i < count
    ensures WrapTicks(start, count)[i].tickMs == WrapTicks(start, count)[i - 1].tickMs + WRAP
  {}

  lemma {:induction false} UnpacedWaitStays(u: Node, count: nat)
    requires u.state == WaitAck
    ensures Run(WrapNode(u), WrapEvents(WrapTicks(u.ackStartedTickMs, count))).0 == WrapNode(u)
  {
    var es := WrapTicks(u.ackStartedTickMs, count);
    if count > 0 {
      var front := WrapTicks(u.ackStartedTickMs, count - 1);
      UnpacedWaitStays(u, count - 1);
      assert WrapEvents(es)[..count - 1] == WrapEvents(front);
      TickWraps(u, count);
      hide Step, WrapNode, WrapEvent;
      TickAtStart(WrapNode(u));
    }
  }

  /** Without the pace the wait need not end: ticks a whole wrap apart, any number, leave the machine as it was. */
  lemma UnpacedWaitNeverEnds(u: Node, count: nat)
    requires u.state == WaitAck
    ensures var es := WrapTicks(u.ackStartedTickMs, count);
      && (forall i :: 0 < i < count ==> es[i].tickMs == es[i - 1].tickMs + WRAP)
      && Run(WrapNode(u), WrapEvents(es)).0 == WrapNode(u)
  {
    hide Run, WrapNode, WrapEvents, WrapTicks;
    var es := WrapTicks(u.ackStartedTickMs, count);
    forall i | 0 < i < count ensures es[i].tickMs == es[i - 1].tickMs + WRAP {
      WrapTicksAscend(u.ackStartedTickMs, count, i);
    }
    UnpacedWaitStays(u, count);
  }
}
