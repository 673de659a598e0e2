/** CRC-16/CCITT-FALSE: the byte and bit loops over a 16-bit register kept as its bits, top bit first. */
module Crc16 {
  import opened Wrappers
  import opened Words
  import opened Gf2

  type Register = r: seq<bool> | |r| == 16 witness Zeros(16)

  const INITIAL_VALUE: nat := 0xFFFF
  const POLYNOMIAL: nat := 0x1021

  /** The generator without its leading term: x^12 + x^5 + 1. */
  const TAPS: Register := [
    false, false, false, true, false, false, false, false,
    false, false, true, false, false, false, false, true]

  const ONES: Register := [
    true, true, true, true, true, true, true, true,
    true, true, true, true, true, true, true, true]

  // ----- the loops -----

  /** One turn of the inner loop: shift left, and fold the bit that falls out back into the taps. */
  function Step(r: Register): Register {
    if r[0] then Xor(r[1..] + [false], TAPS) else r[1..] + [false]
  }

  function StepN(r: Register, n: nat): Register {
    if n == 0 then r else Step(StepN(r, n - 1))
  }

  /** The register after one byte, which enters at the top. */
  function ByteStep(r: Register, data: uint8): Register {
    StepN(Xor(r, ByteBits(data) + Zeros(8)), BitsPerByte())
  }

  /** The register after a byte string, from any starting value. */
  function CrcFrom(r: Register, data: seq<uint8>): Register {
    if data == [] then r else ByteStep(CrcFrom(r, data[..|data| - 1]), data[|data| - 1])
  }

  function Crc(data: seq<uint8>): Register {
    CrcFrom(ONES, data)
  }

  /** A register read as the 16-bit number the source stores. */
  function Number(r: Register): uint16 {
    Pow2Words();
    Value(r)
  }

  /** The two CRC bytes of a frame, high byte first. */
  function Trailer(r: Register): seq<uint8> {
    [High(Number(r)), Low(Number(r))]
  }

  /** A null buffer is accepted only with length zero; None is the source's `false`. */
  method CalculateCcittFalse(data: array?<uint8>, length: nat) returns (crc: Option<uint16>)
    requires data != null ==> length <= data.Length
    ensures crc.None? <==> data == null && length != 0
    ensures crc.Some? ==> crc.value == Number(Crc(if data == null then [] else data[..length]))
    ensures length == 0 ==> crc == Some(0xFFFF)
  {
    hide Bits, ByteBits;
    Constants();
    var value: Register := Bits(INITIAL_VALUE, 16);
    if data == null && length != 0 {
      return None;
    }
    for byteIndex := 0 to length
      invariant data != null ==> value == Crc(data[..byteIndex])
      invariant data == null ==> value == ONES
    {
      ghost var prefix := data[..byteIndex + 1];
      assert prefix[..byteIndex] == data[..byteIndex];
      value := Xor(value, ByteBits(data[byteIndex]) + Zeros(8));
      ghost var entered := value;
      for bitIndex := 0 to BitsPerByte()
        invariant value == StepN(entered, bitIndex)
      {
        if value[0] {
          value := Xor(value[1..] + [false], Bits(POLYNOMIAL, 16));
        } else {
          value := value[1..] + [false];
        }
      }
    }
    crc := Some(Number(value));
    NumberOfOnes();
  }

  /** The loop over a concatenation is the loop over the second part, started where the first ended. */
  lemma {:induction false} CrcConcat(r: Register, a: seq<uint8>, b: seq<uint8>)
    ensures CrcFrom(r, a + b) == CrcFrom(CrcFrom(r, a), b)
  {
    if b == [] {
      assert a + b == a;
    } else {
      CrcConcat(r, a, b[..|b| - 1]);
      assert (a + b)[..|a + b| - 1] == a + b[..|b| - 1];
    }
  }

  // ----- the two constants, bit by bit -----

  lemma Constants()
    ensures Bits(POLYNOMIAL, 16) == TAPS
    ensures Bits(INITIAL_VALUE, 16) == ONES
  {
    ConstantBytes();
    BitsOfBytes(0x10, 0x21);
    BitsOfBytes(0xFF, 0xFF);
    assert BigEndian(0x10, 0x21) == 0x1021 && BigEndian(0xFF, 0xFF) == 0xFFFF;
  }

  lemma NumberOfOnes()
    ensures Number(ONES) == 0xFFFF
  {
    hide Bits;
    Constants();
    Pow2Words();
    ValueOfBits(0xFFFF, 16);
  }

  lemma ConstantBytes()
    ensures ByteBits(0x10) == TAPS[..8] && ByteBits(0x21) == TAPS[8..]
    ensures ByteBits(0xFF) == ONES[..8] == ONES[8..]
  {
    hide Bits;
    Bits10();
    Bits21();
    BitsFF();
  }

  lemma Bits10()
    ensures Bits(0x10, 8) == [false, false, false, true, false, false, false, false]
  {}

  lemma Bits21()
    ensures Bits(0x21, 8) == [false, false, true, false, false, false, false, true]
  {}

  lemma BitsFF()
    ensures Bits(0xFF, 8) == [true, true, true, true, true, true, true, true]
  {}
}
