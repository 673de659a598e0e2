/** The CRC as the remainder of polynomial division, and the zero residue of a sealed message. */
module Crc16Remainder {
  import opened Words
  import opened Gf2
  import opened Crc16
  import opened Crc16Register

  /** x^16 + x^12 + x^5 + 1. */
  const GENERATOR: seq<bool> := [true] + TAPS

  /** The message times x^16, with the starting register added to its leading sixteen places. */
  function Dividend(r: Register, m: seq<bool>): (d: seq<bool>)
    ensures |d| == |m| + 16
  {
    Xor(r + Zeros(|m|), m + Zeros(16))
  }

  /** The bits that fall out of the register, in order. */
  function Quotient(r: Register, m: seq<bool>): (q: seq<bool>)
    ensures |q| == |m|
  {
    if m == [] then []
    else Quotient(r, m[..|m| - 1]) + [FeedBits(r, m[..|m| - 1])[0] != m[|m| - 1]]
  }

  /** dividend == q * GENERATOR + remainder, with the remainder of degree below sixteen. */
  predicate IsDivision(dividend: seq<bool>, q: seq<bool>, remainder: Register) {
    && |dividend| == |q| + 16
    && dividend == Xor(Mul(q, GENERATOR), Zeros(|q|) + remainder)
  }

  lemma DividendLast(r: Register, m: seq<bool>, k: nat)
    requires m != [] && k < |m| + 16
    ensures var n := |m| - 1;
      Dividend(r, m)[k] == ((Dividend(r, m[..n]) + [false])[k] != (k == n && m[n]))
  {
    var n := |m| - 1;
    assert (r + Zeros(n + 1))[k] == ((r + Zeros(n)) + [false])[k];
    assert (m + Zeros(16))[k] == (if k == n then m[n] else ((m[..n] + Zeros(16)) + [false])[k]);
    assert k == n ==> !((m[..n] + Zeros(16)) + [false])[k];
  }

  lemma FeedAt(s: Register, b: bool, j: nat)
    requires j < 16
    ensures Feed(s, b)[j] == ((s[1..] + [false])[j] != ((s[0] != b) && TAPS[j]))
  {}

  lemma PaddedAt(n: nat, s: seq<bool>, k: nat)
    requires k < n + |s|
    ensures (Zeros(n) + s)[k] == (k >= n && s[k - n])
  {}

  /** One more message bit extends the quotient by one bit and keeps the division exact. */
  lemma DivisionLast(r: Register, m: seq<bool>, k: nat)
    requires m != [] && k < |m| + 16
    requires IsDivision(Dividend(r, m[..|m| - 1]), Quotient(r, m[..|m| - 1]), FeedBits(r, m[..|m| - 1]))
    ensures Dividend(r, m)[k] ==
      (Mul(Quotient(r, m), GENERATOR)[k] != (Zeros(|m|) + FeedBits(r, m))[k])
  {
    var n := |m| - 1;
    var q, s, b := Quotient(r, m[..n]), FeedBits(r, m[..n]), m[n];
    var s', q' := Feed(s, b), Quotient(r, m);
    var c := s[0] != b;
    assert q'[..n] == q && q'[n] == c;
    assert s' == FeedBits(r, m);
    DividendLast(r, m, k);
    MulAt(q', GENERATOR, k);
    PaddedAt(n, Scale(c, GENERATOR), k);
    PaddedAt(n + 1, s', k);
    if k < n + 16 {
      PaddedAt(n, s, k);
    }
    if k > n {
      FeedAt(s, b, k - n - 1);
    }
    hide Mul, Dividend, Feed, Quotient, Zeros, FeedBits;
    assert k < n + 16 ==> Dividend(r, m[..n])[k] == (Mul(q, GENERATOR)[k] != (Zeros(n) + s)[k]);
  }

  lemma {:induction false} CrcDivides(r: Register, m: seq<bool>)
    ensures IsDivision(Dividend(r, m), Quotient(r, m), FeedBits(r, m))
  {
    if m == [] {
      assert Dividend(r, m) == r;
      assert Xor(Mul([], GENERATOR), Zeros(0) + r) == r;
    } else {
      CrcDivides(r, m[..|m| - 1]);
      forall k | 0 <= k < |m| + 16
        ensures Dividend(r, m)[k] == Xor(Mul(Quotient(r, m), GENERATOR), Zeros(|m|) + FeedBits(r, m))[k]
      {
        DivisionLast(r, m, k);
      }
    }
  }

  lemma DivisionUnique(d: seq<bool>, q1: seq<bool>, r1: Register, q2: seq<bool>, r2: Register)
    requires IsDivision(d, q1, r1) && IsDivision(d, q2, r2)
    ensures q1 == q2 && r1 == r2
  {
    hide Mul;
    var n := |q1|;
    forall k | 0 <= k < n ensures Mul(q1, GENERATOR)[k] == Mul(q2, GENERATOR)[k] {
      assert d[k] == (Mul(q1, GENERATOR)[k] != (Zeros(n) + r1)[k]);
      assert d[k] == (Mul(q2, GENERATOR)[k] != (Zeros(n) + r2)[k]);
    }
    MulInjective(q1, q2, GENERATOR);
    forall j | 0 <= j < 16 ensures r1[j] == r2[j] {
      assert d[n + j] == (Mul(q1, GENERATOR)[n + j] != (Zeros(n) + r1)[n + j]);
      assert d[n + j] == (Mul(q2, GENERATOR)[n + j] != (Zeros(n) + r2)[n + j]);
    }
  }

  /** The register is exactly the remainder of dividing the message polynomial by the generator. */
  lemma CrcIsRemainder(r: Register, data: seq<uint8>, c: Register)
    ensures c == CrcFrom(r, data) <==> exists q :: IsDivision(Dividend(r, BitsOf(data)), q, c)
  {
    var m := BitsOf(data);
    BytesAreBits(r, data);
    CrcDivides(r, m);
    if q :| IsDivision(Dividend(r, m), q, c) {
      DivisionUnique(Dividend(r, m), q, c, Quotient(r, m), FeedBits(r, m));
    }
  }

  /** The generator as a number. */
  lemma GeneratorIs()
    ensures Value(GENERATOR) == 0x1_1021
  {
    hide Bits, Value, ShiftLeft;
    Constants();
    Pow2Words();
    ValueOfBits(0x1021, 16);
    ValueConcat([true], TAPS);
    LeadingTerm(16);
  }

  lemma LeadingTerm(n: nat)
    requires n == 16
    ensures ShiftLeft(Value([true]), n) == 0x1_0000
  {
    assert Value([true]) == 2 * Value([true][..0]) + 1;
    ShiftLeftByte(Value([true]), n - 8);
    ShiftSum(Value([true]), n - 8, 8);
    ShiftLeftByte(ShiftLeft(Value([true]), n - 8), n - 8);
  }

  lemma {:induction false} ShiftSum(v: nat, a: nat, b: nat)
    ensures ShiftLeft(ShiftLeft(v, a), b) == ShiftLeft(v, a + b)
    decreases b
  {
    if b > 0 {
      ShiftSum(v, a, b - 1);
    }
  }

  /**
   * The CRC of a message is the remainder of its polynomial, with 0xFFFF added to the leading sixteen
   * places, by the generator.
   */
  lemma CrcOfMessage(data: seq<uint8>, c: Register)
    ensures c == Crc(data) <==> exists q :: IsDivision(Dividend(Bits(0xFFFF, 16), BitsOf(data)), q, c)
    ensures Value(GENERATOR) == 0x1_1021
  {
    hide Bits, BitsOf, IsDivision, CrcFrom;
    GeneratorIs();
    Constants();
    CrcIsRemainder(ONES, data, c);
  }

  // ----- residue -----

  /** The receiver's test: the last two bytes are the CRC of the rest. */
  predicate Sealed(s: seq<uint8>) {
    && |s| >= 2
    && BigEndian(s[|s| - 2], s[|s| - 1]) == Number(Crc(s[..|s| - 2]))
  }

  lemma NumberIsBits(r: Register, high: uint8, low: uint8)
    ensures Number(r) == BigEndian(high, low) <==> r == ByteBits(high) + ByteBits(low)
  {
    BitsOfValue(r);
    BitsOfBytes(high, low);
    Pow2Words();
    ValueOfBits(BigEndian(high, low), |r|);
  }

  lemma TwoBytesBits(data: seq<uint8>, high: uint8, low: uint8)
    ensures BitsOf(data + [high, low]) == BitsOf(data) + (ByteBits(high) + ByteBits(low))
  {
    hide ByteBits;
    assert data + [high, low] == (data + [high]) + [low];
    assert (data + [high] + [low])[..|data| + 1] == data + [high];
    assert (data + [high])[..|data|] == data;
    Associative(BitsOf(data), ByteBits(high), ByteBits(low));
  }

  /** Running the loop over data and trailer leaves zero exactly when the trailer is the CRC. */
  lemma ZeroResidue(s: seq<uint8>)
    requires |s| >= 2
    ensures Sealed(s) <==> Crc(s) == Zeros(16)
  {
    hide FeedBits, BitsOf, ByteBits, CrcFrom, Number;
    var data, high, low := s[..|s| - 2], s[|s| - 2], s[|s| - 1];
    var trailer: Register := ByteBits(high) + ByteBits(low);
    assert s == data + [high, low];
    TwoBytesBits(data, high, low);
    BytesAreBits(ONES, s);
    BytesAreBits(ONES, data);
    FeedConcat(ONES, BitsOf(data), trailer);
    AbsorbWord(Crc(data), trailer, 16);
    NumberIsBits(Crc(data), high, low);
  }

  /** Appending the trailer seals any message. */
  lemma TrailerSeals(data: seq<uint8>)
    ensures Sealed(data + Trailer(Crc(data)))
    ensures Crc(data + Trailer(Crc(data))) == Zeros(16)
  {
    var s := data + Trailer(Crc(data));
    assert s[..|s| - 2] == data;
    BigEndianRoundTrip(Number(Crc(data)), 0, 0);
    ZeroResidue(s);
  }
}
