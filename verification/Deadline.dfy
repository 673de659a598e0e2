/** The ACK deadline in counter ticks: the timebase and the state machine together. */
module Deadline {
  import opened Words
  import opened AppTime
  import opened NodePacket
  import opened NodePacketProofs
  import opened NodeState
  import P = NodeStateProofs

  lemma MsMonotone(a: nat, b: nat)
    requires a <= b
    ensures MsAt(a) <= MsAt(b)
  {}

  /** Counts that fit one counter wrap pass too few milliseconds to confuse the deadline. */
  lemma GapInMs(a: nat, b: nat)
    requires a <= b < a + AppTime.WRAP
    ensures MsAt(b) - MsAt(a) <= AppTime.WRAP - ACK_TIMEOUT_MS
  {}

  /** A thousand milliseconds apart on the clock, in counts. */
  lemma ThousandMs(a: nat, b: nat)
    requires a <= b
    ensures MsAt(b) - MsAt(a) < 1000 ==> b - a < 46875
    ensures MsAt(b) - MsAt(a) >= 1000 ==> b - a >= 46829
  {}

  /**
   * txCounts is the count of the sample that started the wait, last that of the previous event and
   * now that of this one, sampled within one counter wrap of the previous. Both wraps are covered.
   */
  lemma RealDeadline(u: Node, e: Event, txCounts: nat, last: nat, now: nat)
    requires u.state == WaitAck && u.ackStartedTickMs == MsAt(txCounts)
    requires P.Clocked(u, MsAt(last))
    requires txCounts <= last <= now < last + AppTime.WRAP
    requires e.tickMs == MsAt(now) % AppTime.WRAP
    ensures var (m, action) := Step(P.WrapNode(u), e);
      && (action.kind == TransactionComplete ==> now - txCounts < 46875)
      && (action.kind == AckTimeout ==> now - txCounts >= 46829)
      && (action.kind == AckTimeout <==> MsAt(now) - MsAt(txCounts) >= 1000)
      && (m.state == WaitAck ==> MsAt(now) - MsAt(txCounts) < ACK_TIMEOUT_MS)
  {
    MsMonotone(last, now);
    MsMonotone(txCounts, last);
    GapInMs(last, now);
    ThousandMs(txCounts, now);
    var t := e.(tickMs := MsAt(now));
    P.StepRefines(u, t);
    Outcomes(u, t);
  }

  lemma Outcomes(u: Node, t: Event)
    requires u.state == WaitAck && P.Started(u, t.tickMs)
    ensures var (m, action) := P.StepTrue(u, t);
      && (action.kind == TransactionComplete ==> t.tickMs - u.ackStartedTickMs < ACK_TIMEOUT_MS)
      && (action.kind == AckTimeout <==> t.tickMs - u.ackStartedTickMs >= ACK_TIMEOUT_MS)
      && (m.state == WaitAck ==> t.tickMs - u.ackStartedTickMs < ACK_TIMEOUT_MS)
  {}

  /** A node that waits since the sample of the given count. */
  function WaitingSince(txCounts: nat): Node {
    Node(WaitAck, 1, 0, 0, 0, MsAt(txCounts), 0, 0)
  }

  function ItsAck(): Event
    ensures IsMessageValid(AckMessage(1, 0, 0))
  {
    Event(FrameReceived, Frame(AckMessage(1, 0, 0)), 0)
  }

  /** Neither bound can be improved: an ACK 46874 counts old is accepted, a wait of 46829 can time out. */
  lemma BoundsAreTight()
    ensures var u, e := WaitingSince(0), ItsAck().(tickMs := MsAt(46874));
      Step(P.WrapNode(u), P.WrapEvent(e)).1.kind == TransactionComplete
    ensures var u, e := WaitingSince(46), ItsAck().(tickMs := MsAt(46 + 46829));
      Step(P.WrapNode(u), P.WrapEvent(e)).1.kind == AckTimeout
  {
    hide Decoded, Frame;
    assert MsAt(0) == 0 && MsAt(46874) == 999;
    assert MsAt(46) == 0 && MsAt(46 + 46829) == 1000;
    var u, e := P.WrapNode(WaitingSince(0)), P.WrapEvent(ItsAck().(tickMs := MsAt(46874)));
    P.OnlyTheAckCompletes(u, e, Elapsed32(e.tickMs, u.intervalStartedTickMs),
                          Elapsed32(e.tickMs, u.ackStartedTickMs));
  }
}
