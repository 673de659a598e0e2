/** The V1 wire format: Type | Src | Dest | ID | Len | Payload | Seq | CRC. */
module NodePacket {
  import opened Wrappers
  import opened Words
  import opened Crc16

  const GATEWAY_ADDRESS: uint8 := 0x00
  const MIN_NODE_ADDRESS: uint8 := 0x01
  const MAX_NODE_ADDRESS: uint8 := 0xFE
  const MIN_LENGTH: nat := 9
  const MAX_LENGTH: nat := 64
  const MAX_PAYLOAD_LENGTH: nat := 55
  const DATA_PAYLOAD_LENGTH: uint8 := 4
  const ERROR_PAYLOAD_LENGTH: uint8 := 1

  const TYPE_POLL: uint8 := 0x01
  const TYPE_DATA: uint8 := 0x02
  const TYPE_ACK: uint8 := 0x03
  const TYPE_ERROR: uint8 := 0x04

  const LENGTH_OFFSET: nat := 4
  const PAYLOAD_OFFSET: nat := 5

  type Payload = p: seq<uint8> | |p| == MAX_PAYLOAD_LENGTH witness seq(MAX_PAYLOAD_LENGTH, i => 0)

  /** A packet in memory; an enumeration variable may hold any integer. */
  datatype Message = Message(
    kind: int,
    source: uint8,
    destination: uint8,
    transactionId: uint8,
    payloadLength: uint8,
    payload: Payload,
    sequence: uint16)

  function EmptyPayload(): Payload {
    seq(MAX_PAYLOAD_LENGTH, i => 0)
  }

  predicate IsNodeAddress(address: uint8) {
    MIN_NODE_ADDRESS <= address <= MAX_NODE_ADDRESS
  }

  predicate IsKnownErrorCode(code: uint8) {
    1 <= code <= 4
  }

  predicate IsMessageValid(m: Message) {
    if m.payloadLength > MAX_PAYLOAD_LENGTH then false
    else if m.kind == TYPE_POLL then
      && m.source == GATEWAY_ADDRESS
      && IsNodeAddress(m.destination)
      && m.payloadLength == 0
      && m.sequence == 0
    else if m.kind == TYPE_DATA then
      && IsNodeAddress(m.source)
      && m.destination == GATEWAY_ADDRESS
      && m.payloadLength == DATA_PAYLOAD_LENGTH
    else if m.kind == TYPE_ACK then
      && m.source == GATEWAY_ADDRESS
      && IsNodeAddress(m.destination)
      && m.payloadLength == 0
    else if m.kind == TYPE_ERROR then
      && IsNodeAddress(m.source)
      && m.destination == GATEWAY_ADDRESS
      && m.payloadLength == ERROR_PAYLOAD_LENGTH
      && IsKnownErrorCode(m.payload[0])
    else false
  }

  // ----- what the codec computes -----

  /** The bytes the CRC covers. */
  function Body(m: Message): (s: seq<uint8>)
    requires IsMessageValid(m)
    ensures |s| == 7 + m.payloadLength
  {
    [m.kind, m.source, m.destination, m.transactionId, m.payloadLength]
    + m.payload[..m.payloadLength]
    + [High(m.sequence), Low(m.sequence)]
  }

  function Frame(m: Message): (s: seq<uint8>)
    requires IsMessageValid(m)
    ensures |s| == MIN_LENGTH + m.payloadLength
  {
    Body(m) + Trailer(Crc(Body(m)))
  }

  /** The fields at their offsets, with the unused payload cleared. */
  function Parse(input: seq<uint8>): Message
    requires |input| >= MIN_LENGTH
    requires |input| == MIN_LENGTH + input[LENGTH_OFFSET] <= MAX_LENGTH
  {
    var n := input[LENGTH_OFFSET];
    Message(
      input[0], input[1], input[2], input[3], n,
      input[PAYLOAD_OFFSET..PAYLOAD_OFFSET + n] + seq(MAX_PAYLOAD_LENGTH - n, i => 0),
      BigEndian(input[PAYLOAD_OFFSET + n], input[PAYLOAD_OFFSET + n + 1]))
  }

  function Decoded(input: seq<uint8>): Option<Message> {
    if |input| < MIN_LENGTH || |input| > MAX_LENGTH then None
    else if input[LENGTH_OFFSET] > MAX_PAYLOAD_LENGTH then None
    else if |input| != MIN_LENGTH + input[LENGTH_OFFSET] then None
    else if !IsMessageValid(Parse(input)) then None
    else if BigEndian(input[|input| - 2], input[|input| - 1]) != Number(Crc(input[..|input| - 2])) then None
    else Some(Parse(input))
  }

  // ----- the wire contract, in numbers -----

  /** Who may send what to whom, and how long it is: POLL, DATA, ACK and ERROR are types 1 to 4. */
  predicate Contract(m: Message) {
    || (m.kind == 1 && m.source == 0 && 1 <= m.destination <= 254 && m.payloadLength == 0 && m.sequence == 0)
    || (m.kind == 2 && 1 <= m.source <= 254 && m.destination == 0 && m.payloadLength == 4)
    || (m.kind == 3 && m.source == 0 && 1 <= m.destination <= 254 && m.payloadLength == 0)
    || (m.kind == 4 && 1 <= m.source <= 254 && m.destination == 0 && m.payloadLength == 1 && 1 <= m.payload[0] <= 4)
  }

  lemma ValidIffContract(m: Message)
    ensures IsMessageValid(m) <==> Contract(m)
  {}

  /** The bytes of a frame: five header bytes, the payload, Seq and CRC with their high bytes first. */
  predicate Layout(s: seq<uint8>, m: Message) {
    && |s| == 9 + m.payloadLength && m.payloadLength <= 55
    && s[0] == m.kind && s[1] == m.source && s[2] == m.destination && s[3] == m.transactionId
    && s[4] == m.payloadLength
    && (forall k :: 0 <= k < m.payloadLength ==> s[5 + k] == m.payload[k])
    && s[|s| - 4] as int * 0x100 + s[|s| - 3] == m.sequence
    && s[|s| - 2] as int * 0x100 + s[|s| - 1] == Number(Crc(s[..|s| - 2]))
  }

  lemma FrameLayout(m: Message)
    requires IsMessageValid(m)
    ensures Layout(Frame(m), m)
  {
    hide Crc, Number;
    var s := Frame(m);
    LengthInRange(m);
    forall k | 0 <= k < m.payloadLength ensures s[5 + k] == m.payload[k] {
      BodyAt(m, 5 + k);
    }
    BodyAt(m, 5 + m.payloadLength);
    BodyAt(m, 6 + m.payloadLength);
    BigEndianRoundTrip(m.sequence, 0, 0);
    assert s[..|s| - 2] == Body(m);
    BigEndianRoundTrip(Number(Crc(Body(m))), 0, 0);
  }

  // ----- the codec itself -----

  method Copy(source: seq<uint8>, target: array<uint8>, offset: nat)
    requires offset + |source| <= target.Length
    modifies target
    ensures forall k :: 0 <= k < |source| ==> target[offset + k] == source[k]
    ensures forall k :: 0 <= k < target.Length && !(offset <= k < offset + |source|) ==> target[k] == old(target[k])
  {
    for i := 0 to |source|
      invariant forall k :: 0 <= k < i ==> target[offset + k] == source[k]
      invariant forall k :: 0 <= k < target.Length && !(offset <= k < offset + i) ==> target[k] == old(target[k])
    {
      target[offset + i] := source[i];
    }
  }

  lemma LengthInRange(m: Message)
    requires IsMessageValid(m)
    ensures m.payloadLength <= MAX_PAYLOAD_LENGTH && 0 <= m.kind < 0x100
  {}

  lemma BodyAt(m: Message, k: nat)
    requires IsMessageValid(m) && k < 7 + m.payloadLength
    ensures Body(m)[k] ==
      if k < 5 then [m.kind, m.source, m.destination, m.transactionId, m.payloadLength][k]
      else if k < 5 + m.payloadLength then m.payload[k - 5]
      else if k == 5 + m.payloadLength then High(m.sequence)
      else Low(m.sequence)
  {}

  /** The header, payload and sequence bytes of the temporary frame. */
  method WriteBody(message: Message, frame: array<uint8>)
    requires IsMessageValid(message) && frame.Length == MAX_LENGTH
    modifies frame
    ensures frame[..7 + message.payloadLength] == Body(message)
  {
    hide Body, IsMessageValid, High, Low;
    LengthInRange(message);
    frame[0] := message.kind;
    frame[1] := message.source;
    frame[2] := message.destination;
    frame[3] := message.transactionId;
    frame[LENGTH_OFFSET] := message.payloadLength;
    Copy(message.payload[..message.payloadLength], frame, PAYLOAD_OFFSET);

    var sequenceOffset := PAYLOAD_OFFSET + message.payloadLength;
    frame[sequenceOffset] := High(message.sequence);
    frame[sequenceOffset + 1] := Low(message.sequence);
    forall k | 0 <= k < sequenceOffset + 2 ensures frame[k] == Body(message)[k] {
      BodyAt(message, k);
    }
  }

  /** Some(length) is the source's `true` with *output_length set; None leaves the caller's data alone. */
  method Encode(message: Message, output: array<uint8>, outputCapacity: nat) returns (written: Option<nat>)
    requires outputCapacity <= output.Length
    modifies output
    ensures written.Some? <==>
      IsMessageValid(message) && MIN_LENGTH + message.payloadLength <= outputCapacity
    ensures written.Some? <==> Contract(message) && 9 + message.payloadLength <= outputCapacity
    ensures written.Some? ==>
      && written.value == |Frame(message)| <= outputCapacity
      && Layout(output[..written.value], message)
      && output[..written.value] == Frame(message)
      && output[written.value..] == old(output[written.value..])
    ensures written.None? ==> output[..] == old(output[..])
  {
    hide Body, IsMessageValid, Contract, Layout, High, Low, Crc, Number;
    ValidIffContract(message);
    if !IsMessageValid(message) {
      return None;
    }
    LengthInRange(message);
    var frameLength := MIN_LENGTH + message.payloadLength;
    if outputCapacity < frameLength {
      return None;
    }
    var frame := new uint8[MAX_LENGTH](_ => 0);
    WriteBody(message, frame);

    var crcOffset := frameLength - 2;
    var crc := CalculateCcittFalse(frame, crcOffset);
    if crc.None? {
      return None;
    }
    frame[crcOffset] := High(crc.value);
    frame[crcOffset + 1] := Low(crc.value);
    assert frame[..frameLength] == frame[..crcOffset] + [frame[crcOffset], frame[crcOffset + 1]];

    Copy(frame[..frameLength], output, 0);
    assert output[..frameLength] == frame[..frameLength];
    FrameLayout(message);
    written := Some(frameLength);
  }

  /** The payload bytes over a cleared buffer. */
  method CopyPayload(input: array<uint8>, length: uint8) returns (payload: Payload)
    requires length <= MAX_PAYLOAD_LENGTH && PAYLOAD_OFFSET + length <= input.Length
    ensures payload ==
      input[PAYLOAD_OFFSET..PAYLOAD_OFFSET + length] + seq(MAX_PAYLOAD_LENGTH - length, i => 0)
  {
    var cleared := new uint8[MAX_PAYLOAD_LENGTH](_ => 0);
    var source := input[PAYLOAD_OFFSET..PAYLOAD_OFFSET + length];
    Copy(source, cleared, 0);
    assert cleared[..length] == source;
    assert cleared[length..] == seq(MAX_PAYLOAD_LENGTH - length, i => 0);
    payload := cleared[..];
  }

  /** Acceptance in bytes: one of the four shapes, and the right CRC at the end. */
  predicate Accepted(s: seq<uint8>) {
    && (|| (|s| == 9 && s[0] == 1 && s[1] == 0 && 1 <= s[2] <= 254 && s[4] == 0 && s[5] == 0 && s[6] == 0)
        || (|s| == 13 && s[0] == 2 && 1 <= s[1] <= 254 && s[2] == 0 && s[4] == 4)
        || (|s| == 9 && s[0] == 3 && s[1] == 0 && 1 <= s[2] <= 254 && s[4] == 0)
        || (|s| == 10 && s[0] == 4 && 1 <= s[1] <= 254 && s[2] == 0 && s[4] == 1 && 1 <= s[5] <= 4))
    && s[|s| - 2] as int * 0x100 + s[|s| - 1] == Number(Crc(s[..|s| - 2]))
  }

  /** Which byte of the input each field is. */
  lemma ParseFields(s: seq<uint8>)
    requires |s| >= 9 && |s| == 9 + s[4] as int <= 64
    ensures var m := Parse(s);
      && m.kind == s[0] && m.source == s[1] && m.destination == s[2] && m.transactionId == s[3]
      && m.payloadLength == s[4]
      && (forall k :: 0 <= k < s[4] ==> m.payload[k] == s[5 + k])
      && (forall k :: s[4] <= k < 55 ==> m.payload[k] == 0)
      && m.sequence == s[|s| - 4] as int * 0x100 + s[|s| - 3]
  {}

  lemma AcceptedIff(s: seq<uint8>)
    ensures Decoded(s).Some? <==> Accepted(s)
    ensures Decoded(s).Some? ==>
      && Layout(s, Decoded(s).value)
      && forall k :: Decoded(s).value.payloadLength <= k < 55 ==> Decoded(s).value.payload[k] == 0
  {
    hide Crc, Number, Parse, IsMessageValid;
    if |s| >= 9 && |s| == 9 + s[4] as int <= 64 {
      ParseFields(s);
      ValidIffContract(Parse(s));
    }
  }

  /** A null input is rejected; None leaves the caller's message alone. */
  method Decode(input: array?<uint8>, inputLength: nat) returns (message: Option<Message>)
    requires input != null ==> inputLength <= input.Length
    ensures message == if input == null then None else Decoded(input[..inputLength])
    ensures message.Some? <==> input != null && Accepted(input[..inputLength])
    ensures message.Some? ==> Layout(input[..inputLength], message.value)
  {
    hide IsMessageValid, CrcFrom, Crc, Number, BigEndian, Accepted, Layout;
    if input == null {
      return None;
    }
    AcceptedIff(input[..inputLength]);
    if inputLength < MIN_LENGTH || inputLength > MAX_LENGTH {
      return None;
    }
    var payloadLength := input[LENGTH_OFFSET];
    if payloadLength > MAX_PAYLOAD_LENGTH {
      return None;
    }
    if inputLength != MIN_LENGTH + payloadLength {
      return None;
    }
    var payload := CopyPayload(input, payloadLength);
    var sequenceOffset := PAYLOAD_OFFSET + payloadLength;
    var decoded := Message(input[0], input[1], input[2], input[3], payloadLength, payload,
                           BigEndian(input[sequenceOffset], input[sequenceOffset + 1]));
    ghost var bytes := input[..inputLength];
    assert bytes[PAYLOAD_OFFSET..sequenceOffset] == input[PAYLOAD_OFFSET..sequenceOffset];
    assert decoded == Parse(bytes);
    if !IsMessageValid(decoded) {
      return None;
    }
    var crcOffset := sequenceOffset + 2;
    assert bytes[..inputLength - 2] == input[..crcOffset];
    var calculatedCrc := CalculateCcittFalse(input, crcOffset);
    if calculatedCrc.None? {
      return None;
    }
    var receivedCrc := BigEndian(input[crcOffset], input[crcOffset + 1]);
    if receivedCrc != calculatedCrc.value {
      return None;
    }
    message := Some(decoded);
  }
}
