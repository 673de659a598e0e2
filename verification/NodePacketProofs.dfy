/** The codec is a bijection between canonical valid messages and accepted frames, and rejects corruption. */
module NodePacketProofs {
  import opened Wrappers
  import opened Words
  import opened Gf2
  import opened Crc16
  import opened Crc16Register
  import opened Crc16Remainder
  import opened Crc16Detection
  import opened NodePacket

  /** The message as a receiver sees it: payload bytes past payloadLength are zero. */
  function Canonical(m: Message): Message
    requires m.payloadLength <= MAX_PAYLOAD_LENGTH
  {
    m.(payload := m.payload[..m.payloadLength] + seq(MAX_PAYLOAD_LENGTH - m.payloadLength, i => 0))
  }

  lemma ValidPayload(m: Message)
    requires IsMessageValid(m)
    ensures m.payloadLength in {0, 1, 4}
    ensures IsMessageValid(Canonical(m))
  {}

  lemma FrameFields(m: Message)
    requires IsMessageValid(m)
    ensures var s, n := Frame(m), m.payloadLength;
      && s[..n + 7] == Body(m) && s[n + 7..] == Trailer(Crc(Body(m)))
      && s[LENGTH_OFFSET] == n
      && Parse(s) == Canonical(m)
  {
    hide CrcFrom, Number;
    var s, n := Frame(m), m.payloadLength;
    ValidPayload(m);
    assert s[PAYLOAD_OFFSET..PAYLOAD_OFFSET + n] == m.payload[..n];
    BigEndianRoundTrip(m.sequence, 0, 0);
  }

  /** Decoding an encoded message gives the message back. */
  lemma DecodeEncode(m: Message)
    requires IsMessageValid(m)
    ensures Decoded(Frame(m)) == Some(Canonical(m))
  {
    hide CrcFrom, Number;
    FrameFields(m);
    ValidPayload(m);
    BigEndianRoundTrip(Number(Crc(Body(m))), 0, 0);
  }

  lemma ParseBody(s: seq<uint8>)
    requires |s| >= MIN_LENGTH && |s| == MIN_LENGTH + s[LENGTH_OFFSET] <= MAX_LENGTH
    requires IsMessageValid(Parse(s))
    ensures Body(Parse(s)) == s[..|s| - 2]
  {
    hide Body, IsMessageValid, High, Low, BigEndian;
    var m, n := Parse(s), s[LENGTH_OFFSET];
    BigEndianRoundTrip(0, s[5 + n], s[6 + n]);
    assert m.payload[..n] == s[5..5 + n];
    assert m.kind == s[0] && m.source == s[1] && m.destination == s[2] && m.transactionId == s[3];
    assert m.payloadLength == s[4] == n && m.sequence == BigEndian(s[5 + n], s[6 + n]);
    hide Parse;
    forall i | 0 <= i < |s| - 2 ensures Body(m)[i] == s[i] {
      BodyAt(m, i);
      if 5 <= i < 5 + n {
        assert m.payload[i - 5] == m.payload[..n][i - 5] == s[5..5 + n][i - 5];
      }
    }
  }

  lemma TrailerIs(r: Register, high: uint8, low: uint8)
    requires BigEndian(high, low) == Number(r)
    ensures Trailer(r) == [high, low]
  {
    hide Number;
    BigEndianRoundTrip(0, high, low);
  }

  /** Re-encoding a decoded message reproduces the received bytes. */
  lemma EncodeDecode(s: seq<uint8>)
    requires Decoded(s).Some?
    ensures var m := Decoded(s).value;
      IsMessageValid(m) && Canonical(m) == m && Frame(m) == s
  {
    hide Crc, Number, Body, IsMessageValid, BigEndian, Trailer;
    var k := |s| - 2;
    ParseBody(s);
    TrailerIs(Crc(s[..k]), s[k], s[k + 1]);
    assert s == s[..k] + [s[k], s[k + 1]];
  }

  /** Exactly the encodings of valid messages are accepted, and they are 9, 10 or 13 bytes long. */
  lemma AcceptedIffEncoded(s: seq<uint8>)
    ensures Decoded(s).Some? <==> exists m :: IsMessageValid(m) && s == Frame(m)
    ensures Decoded(s).Some? ==> |s| in {9, 10, 13}
  {
    if Decoded(s).Some? {
      EncodeDecode(s);
      ValidPayload(Decoded(s).value);
    }
    if m :| IsMessageValid(m) && s == Frame(m) {
      DecodeEncode(m);
    }
  }

  /** Two messages share a frame only when they agree on everything a receiver can see. */
  lemma FrameInjective(a: Message, b: Message)
    requires IsMessageValid(a) && IsMessageValid(b)
    ensures Frame(a) == Frame(b) <==> Canonical(a) == Canonical(b)
  {
    hide CrcFrom, Number;
    DecodeEncode(a);
    DecodeEncode(b);
    if Canonical(a) == Canonical(b) {
      EncodeDecode(Frame(a));
      EncodeDecode(Frame(b));
    }
  }

  // ----- the acknowledgement -----

  function AckMessage(address: uint8, transactionId: uint8, sequence: uint16): Message {
    Message(TYPE_ACK, GATEWAY_ADDRESS, address, transactionId, 0, EmptyPayload(), sequence)
  }

  /** The ACK in bytes. */
  lemma AckBytes(address: uint8, transactionId: uint8, sequence: uint16, s: seq<uint8>)
    requires IsNodeAddress(address)
    ensures s == Frame(AckMessage(address, transactionId, sequence)) <==>
      && |s| == 9 && s[0] == 3 && s[1] == 0 && s[2] == address && s[3] == transactionId && s[4] == 0
      && s[5] as int * 0x100 + s[6] == sequence
      && s[7] as int * 0x100 + s[8] == Number(Crc(s[..7]))
  {
    var ack := AckMessage(address, transactionId, sequence);
    hide Decoded, Frame, Crc, Number, IsMessageValid;
    assert IsMessageValid(ack) by { ValidIffContract(ack); }
    FrameLayout(ack);
    if |s| == 9 && s[0] == 3 && s[1] == 0 && s[2] == address && s[3] == transactionId && s[4] == 0
       && s[5] as int * 0x100 + s[6] == sequence && s[7] as int * 0x100 + s[8] == Number(Crc(s[..7])) {
      AcceptedIff(s);
      EncodeDecode(s);
      var m := Decoded(s).value;
      assert m.payload == ack.payload;
      assert m == ack;
    }
  }

  // ----- corruption -----

  lemma AcceptedIsSealed(s: seq<uint8>)
    requires Decoded(s).Some?
    ensures Sealed(s)
  {}

  lemma FrameIsEven(m: Message)
    requires IsMessageValid(m)
    ensures Weight(BitsOf(Frame(m))) % 2 == 0
  {
    DecodeEncode(m);
    AcceptedIsSealed(Frame(m));
    SealedIsEven(Frame(m));
  }

  /** Two different accepted frames of one length differ in at least four bits. */
  lemma AcceptedDistance(u: seq<uint8>, v: seq<uint8>)
    requires Decoded(u).Some? && Decoded(v).Some? && |u| == |v| && u != v
    ensures Distance(u, v) >= 4
  {
    AcceptedIsSealed(u);
    AcceptedIsSealed(v);
    AcceptedIffEncoded(u);
    HammingDistanceFour(u, v);
  }

  /** The corruptions of a frame that no reception may turn into another message. */
  ghost predicate Corrupts(u: seq<uint8>, v: seq<uint8>) {
    && |u| == |v| && u != v
    && (Distance(u, v) <= 3 || Distance(u, v) % 2 == 1 || exists start: nat :: Burst(u, v, start))
  }

  /** One, two, three or any odd number of flipped bits, or a burst of sixteen, is always rejected. */
  lemma CorruptionRejected(m: Message, received: seq<uint8>)
    requires IsMessageValid(m) && Corrupts(Frame(m), received)
    ensures Decoded(received) == None
  {
    hide Decoded, Frame, Distance, Burst, IsMessageValid;
    var sent := Frame(m);
    DecodeEncode(m);
    if Decoded(received).Some? {
      AcceptedDistance(sent, received);
      AcceptedIsSealed(sent);
      AcceptedIsSealed(received);
      if start: nat :| Burst(sent, received, start) {
        BurstDetected(sent, received, start);
      }
      if Distance(sent, received) % 2 == 1 {
        OddErrorsDetected(sent, received);
      }
    }
  }
}
