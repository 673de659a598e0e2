/** Construction of the DATA or ERROR frame of one cycle, with the fallback to ERROR. */
module NodeResponse {
  import opened Wrappers
  import opened Words
  import opened NodePacket
  import opened NodePacketProofs

  const SENSOR_OK: nat := 0
  const SENSOR_INIT_FAILED: nat := 1
  const SENSOR_READ_FAILED: nat := 2
  const SENSOR_VALUE_INVALID: nat := 3

  const ERROR_DHT_INIT_FAILED: uint8 := 1
  const ERROR_DHT_READ_FAILED: uint8 := 2
  const ERROR_DHT_VALUE_INVALID: uint8 := 3
  const ERROR_PACKET_BUILD_FAILED: uint8 := 4

  const DATA_FRAME_LENGTH: nat := 13
  const ERROR_FRAME_LENGTH: nat := 10

  datatype SensorResult = SensorResult(status: nat, temperatureX10: int16, humidityX10: uint16)

  datatype Request = Request(
    nodeAddress: uint8, transactionId: uint8, sequence: uint16, sensor: SensorResult)

  datatype BuildResult = InvalidArgument | DataReady | ErrorReady | LocalError

  function MapSensorError(status: nat): uint8 {
    if status == SENSOR_INIT_FAILED then ERROR_DHT_INIT_FAILED
    else if status == SENSOR_READ_FAILED then ERROR_DHT_READ_FAILED
    else if status == SENSOR_VALUE_INVALID then ERROR_DHT_VALUE_INVALID
    else ERROR_PACKET_BUILD_FAILED
  }

  /** The C conversion of a signed 16-bit value to unsigned. */
  function TwosComplement(t: int16): uint16 {
    if t < 0 then t + 0x1_0000 else t
  }

  function InitialMessage(request: Request): Message {
    Message(0, request.nodeAddress, GATEWAY_ADDRESS, request.transactionId, 0, EmptyPayload(), request.sequence)
  }

  function ErrorMessage(request: Request, code: uint8): Message {
    InitialMessage(request).(
      kind := TYPE_ERROR,
      payloadLength := ERROR_PAYLOAD_LENGTH,
      payload := EmptyPayload()[0 := code])
  }

  function DataMessage(request: Request): Message {
    var t, h := TwosComplement(request.sensor.temperatureX10), request.sensor.humidityX10;
    InitialMessage(request).(
      kind := TYPE_DATA,
      payloadLength := DATA_PAYLOAD_LENGTH,
      payload := EmptyPayload()[0 := High(t)][1 := Low(t)][2 := High(h)][3 := Low(h)])
  }

  predicate Acceptable(request: Request) {
    IsNodeAddress(request.nodeAddress) && request.sensor.status <= SENSOR_VALUE_INVALID
  }

  /** The message, if any, whose frame fits the caller's capacity. */
  function Outcome(request: Request, capacity: nat): Option<Message>
    requires request.sensor.status <= SENSOR_VALUE_INVALID
  {
    var ok := request.sensor.status == SENSOR_OK;
    if ok && capacity >= DATA_FRAME_LENGTH then Some(DataMessage(request))
    else if capacity >= ERROR_FRAME_LENGTH then
      Some(ErrorMessage(request, if ok then ERROR_PACKET_BUILD_FAILED else request.sensor.status))
    else None
  }

  /**
   * What the gateway decodes from a frame of the request: the reading as DATA when it is good and
   * fits, and otherwise an ERROR with the number of the fault, or 4 for a reading that does not fit.
   */
  predicate Reports(s: seq<uint8>, request: Request, fits: bool) {
    match Decoded(s)
    case None => false
    case Some(m) =>
      && m.source == request.nodeAddress && m.destination == 0
      && m.transactionId == request.transactionId && m.sequence == request.sequence
      && if request.sensor.status == 0 && fits then
           && m.kind == 2
           && m.payload[0] as int * 0x100 + m.payload[1] == (request.sensor.temperatureX10 + 0x1_0000) % 0x1_0000
           && m.payload[2] as int * 0x100 + m.payload[3] == request.sensor.humidityX10
         else
           m.kind == 4 && m.payload[0] == if request.sensor.status == 0 then 4 else request.sensor.status
  }

  lemma DataReports(request: Request)
    requires Acceptable(request) && request.sensor.status == SENSOR_OK
    ensures IsMessageValid(DataMessage(request)) && |Frame(DataMessage(request))| == 13
    ensures Reports(Frame(DataMessage(request)), request, true)
  {
    OutcomesAreValid(request);
    DecodeEncode(DataMessage(request));
    hide Decoded, Frame, IsMessageValid;
    BigEndianRoundTrip(TwosComplement(request.sensor.temperatureX10), 0, 0);
    BigEndianRoundTrip(request.sensor.humidityX10, 0, 0);
  }

  lemma ErrorReports(request: Request, fits: bool)
    requires Acceptable(request) && (request.sensor.status == SENSOR_OK ==> !fits)
    ensures var code := if request.sensor.status == SENSOR_OK then 4 else request.sensor.status;
      var m := ErrorMessage(request, code);
      IsMessageValid(m) && |Frame(m)| == 10 && Reports(Frame(m), request, fits)
  {
    hide Decoded, Frame, IsMessageValid;
    var code := if request.sensor.status == SENSOR_OK then 4 else request.sensor.status;
    ErrorIsValid(request, code);
    DecodeEncode(ErrorMessage(request, code));
  }

  lemma ErrorIsValid(request: Request, code: uint8)
    requires Acceptable(request) && 1 <= code <= 4
    ensures IsMessageValid(ErrorMessage(request, code))
  {}

  lemma OutcomeReports(request: Request, capacity: nat)
    requires 1 <= request.nodeAddress <= 254 && request.sensor.status <= 3 && capacity >= 10
    ensures Outcome(request, capacity).Some?
    ensures var m := Outcome(request, capacity).value;
      && IsMessageValid(m)
      && |Frame(m)| == (if request.sensor.status == 0 && capacity >= 13 then 13 else 10)
      && Reports(Frame(m), request, capacity >= 13)
  {
    hide Decoded, Frame, IsMessageValid, Reports, DataMessage, ErrorMessage;
    if request.sensor.status == SENSOR_OK && capacity >= DATA_FRAME_LENGTH {
      DataReports(request);
    } else {
      ErrorReports(request, capacity >= 13);
    }
  }

  method BuildError(request: Request, code: uint8, output: array<uint8>, outputCapacity: nat)
    returns (result: BuildResult, written: Option<nat>)
    requires outputCapacity <= output.Length
    modifies output
    ensures result == if written.Some? then ErrorReady else LocalError
    ensures written.Some? <==>
      IsMessageValid(ErrorMessage(request, code)) && ERROR_FRAME_LENGTH <= outputCapacity
    ensures written.Some? ==>
      && written.value == ERROR_FRAME_LENGTH
      && output[..written.value] == Frame(ErrorMessage(request, code))
      && output[written.value..] == old(output[written.value..])
    ensures written.None? ==> output[..] == old(output[..])
  {
    var message := InitialMessage(request);
    message := message.(kind := TYPE_ERROR);
    message := message.(payloadLength := ERROR_PAYLOAD_LENGTH);
    message := message.(payload := message.payload[0 := code]);
    written := Encode(message, output, outputCapacity);
    if written.None? {
      return LocalError, None;
    }
    return ErrorReady, written;
  }

  /**
   * The outcome is fixed by the request and the capacity: nothing is written unless the address and
   * status are acceptable and some frame fits, and then exactly the frame of Outcome is.
   */
  method Build(request: Request, output: array<uint8>, outputCapacity: nat)
    returns (result: BuildResult, written: Option<nat>)
    requires outputCapacity <= output.Length
    modifies output
    ensures result == InvalidArgument <==>
      !(1 <= request.nodeAddress <= 254 && request.sensor.status <= 3)
    ensures written.Some? <==>
      1 <= request.nodeAddress <= 254 && request.sensor.status <= 3 && outputCapacity >= 10
    ensures written.Some? ==>
      && written.value <= outputCapacity
      && written.value == (if request.sensor.status == 0 && outputCapacity >= 13 then 13 else 10)
      && Reports(output[..written.value], request, outputCapacity >= 13)
    ensures result == InvalidArgument <==> !Acceptable(request)
    ensures result == LocalError <==> Acceptable(request) && Outcome(request, outputCapacity).None?
    ensures result == DataReady <==>
      Acceptable(request) && request.sensor.status == SENSOR_OK && outputCapacity >= DATA_FRAME_LENGTH
    ensures written.Some? <==> result in {DataReady, ErrorReady}
    ensures written.Some? ==> Acceptable(request) && Outcome(request, outputCapacity).Some?
    ensures written.Some? ==>
      var message := Outcome(request, outputCapacity).value;
      && IsMessageValid(message)
      && written.value == |Frame(message)|
      && output[..written.value] == Frame(message)
      && output[written.value..] == old(output[written.value..])
    ensures written.None? ==> output[..] == old(output[..])
  {
    if !IsNodeAddress(request.nodeAddress) || request.sensor.status > SENSOR_VALUE_INVALID {
      return InvalidArgument, None;
    }
    OutcomesAreValid(request);
    if outputCapacity >= ERROR_FRAME_LENGTH {
      OutcomeReports(request, outputCapacity);
    }
    hide Reports;
    if request.sensor.status != SENSOR_OK {
      result, written := BuildError(request, MapSensorError(request.sensor.status), output, outputCapacity);
      return;
    }
    var message := InitialMessage(request);
    message := message.(kind := TYPE_DATA);
    message := message.(payloadLength := DATA_PAYLOAD_LENGTH);
    var temperatureBits := TwosComplement(request.sensor.temperatureX10);
    message := message.(payload := message.payload[0 := High(temperatureBits)]);
    message := message.(payload := message.payload[1 := Low(temperatureBits)]);
    message := message.(payload := message.payload[2 := High(request.sensor.humidityX10)]);
    message := message.(payload := message.payload[3 := Low(request.sensor.humidityX10)]);
    written := Encode(message, output, outputCapacity);
    if written.Some? {
      return DataReady, written;
    }
    result, written := BuildError(request, ERROR_PACKET_BUILD_FAILED, output, outputCapacity);
  }

  lemma OutcomesAreValid(request: Request)
    requires Acceptable(request)
    ensures IsMessageValid(DataMessage(request))
    ensures forall code: uint8 :: IsKnownErrorCode(code) ==> IsMessageValid(ErrorMessage(request, code))
    ensures IsKnownErrorCode(MapSensorError(request.sensor.status)) && IsKnownErrorCode(ERROR_PACKET_BUILD_FAILED)
  {}

  // ----- what the gateway reads back -----

  function ReadSigned(bits: uint16): int16 {
    if bits >= 0x8000 then bits - 0x1_0000 else bits
  }

  function ReadTemperature(m: Message): int16 {
    ReadSigned(BigEndian(m.payload[0], m.payload[1]))
  }

  function ReadHumidity(m: Message): uint16 {
    BigEndian(m.payload[2], m.payload[3])
  }

  predicate FromNode(m: Message, request: Request) {
    && m.source == request.nodeAddress && m.destination == GATEWAY_ADDRESS
    && m.transactionId == request.transactionId && m.sequence == request.sequence
  }

  /** Every temperature, negative ones included, and every humidity survives the wire. */
  lemma DataEndToEnd(request: Request)
    requires Acceptable(request)
    ensures IsMessageValid(DataMessage(request))
    ensures var received := Decoded(Frame(DataMessage(request)));
      && received.Some?
      && received.value.kind == TYPE_DATA && FromNode(received.value, request)
      && ReadTemperature(received.value) == request.sensor.temperatureX10
      && ReadHumidity(received.value) == request.sensor.humidityX10
  {
    OutcomesAreValid(request);
    DecodeEncode(DataMessage(request));
    BigEndianRoundTrip(TwosComplement(request.sensor.temperatureX10), 0, 0);
    BigEndianRoundTrip(request.sensor.humidityX10, 0, 0);
  }

  /** A fault arrives as the error code of its cause. */
  lemma ErrorEndToEnd(request: Request, code: uint8)
    requires Acceptable(request) && IsKnownErrorCode(code)
    ensures IsMessageValid(ErrorMessage(request, code))
    ensures var received := Decoded(Frame(ErrorMessage(request, code)));
      && received.Some?
      && received.value.kind == TYPE_ERROR && FromNode(received.value, request)
      && received.value.payload[0] == code
  {
    OutcomesAreValid(request);
    DecodeEncode(ErrorMessage(request, code));
  }
}
