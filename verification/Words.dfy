/** The machine integers of the firmware, and their binary digits. */
module Words {
  type uint8 = n: int | 0 <= n < 0x100
  type uint16 = n: int | 0 <= n < 0x1_0000
  type uint32 = n: int | 0 <= n < 0x1_0000_0000
  type int16 = n: int | -0x8000 <= n < 0x8000

  function Pow2(width: nat): (p: nat)
    ensures p > 0
  {
    if width == 0 then 1 else 2 * Pow2(width - 1)
  }

  lemma Pow2Words()
    ensures Pow2(8) == 0x100 && Pow2(16) == 0x1_0000
  {
    assert Pow2(8) == 16 * Pow2(4);
    assert Pow2(16) == 16 * Pow2(12) == 256 * Pow2(8);
  }

  /** The binary digits of a number, most significant first. */
  function Bits(n: nat, width: nat): (b: seq<bool>)
    ensures |b| == width
    decreases width
  {
    if width == 0 then [] else Bits(n / 2, width - 1) + [n % 2 == 1]
  }

  /** The number written by binary digits. */
  function Value(b: seq<bool>): (n: nat)
    ensures n < Pow2(|b|)
  {
    if b == [] then 0 else 2 * Value(b[..|b| - 1]) + (if b[|b| - 1] then 1 else 0)
  }

  lemma {:induction false} ValueOfBits(n: nat, width: nat)
    requires n < Pow2(width)
    ensures Value(Bits(n, width)) == n
    decreases width
  {
    if width > 0 {
      ValueOfBits(n / 2, width - 1);
      assert Bits(n, width)[..width - 1] == Bits(n / 2, width - 1);
    }
  }

  lemma {:induction false} BitsOfValue(b: seq<bool>)
    ensures Bits(Value(b), |b|) == b
  {
    if b != [] {
      BitsOfValue(b[..|b| - 1]);
    }
  }

  function Byte(b: seq<bool>): uint8
    requires |b| == 8
  {
    Pow2Words();
    Value(b)
  }

  function BitsPerByte(): nat { 8 }

  function ByteBits(n: uint8): (b: seq<bool>)
    ensures |b| == 8
  {
    Bits(n, BitsPerByte())
  }

  lemma ByteRoundTrip(n: uint8, b: seq<bool>)
    requires |b| == 8
    ensures Byte(ByteBits(n)) == n
    ensures ByteBits(Byte(b)) == b
  {
    Pow2Words();
    ValueOfBits(n, 8);
    BitsOfValue(b);
  }

  function ShiftLeft(n: nat, count: nat): nat {
    if count == 0 then n else 2 * ShiftLeft(n, count - 1)
  }

  lemma ShiftLeftByte(n: nat, count: nat)
    requires count == 8
    ensures ShiftLeft(n, count) == 0x100 * n
  {
    assert ShiftLeft(n, count - 7) == 2 * n;
    assert ShiftLeft(n, count - 6) == 4 * n;
    assert ShiftLeft(n, count - 5) == 8 * n;
    assert ShiftLeft(n, count - 4) == 0x10 * n;
    assert ShiftLeft(n, count - 2) == 0x40 * n;
  }

  lemma {:induction false} ValueConcat(a: seq<bool>, b: seq<bool>)
    ensures Value(a + b) == ShiftLeft(Value(a), |b|) + Value(b)
  {
    if b == [] {
      assert a + b == a;
    } else {
      ValueConcat(a, b[..|b| - 1]);
      assert (a + b)[..|a + b| - 1] == a + b[..|b| - 1];
    }
  }

  /** The bits of a 16-bit number are the bits of its two bytes. */
  lemma BitsOfBytes(high: uint8, low: uint8)
    ensures Bits(BigEndian(high, low), 16) == ByteBits(high) + ByteBits(low)
  {
    hide Bits, Value, Pow2, ShiftLeft;
    var h, l := ByteBits(high), ByteBits(low);
    Pow2Words();
    ValueOfBits(high, 8);
    ValueOfBits(low, 8);
    ValueConcat(h, l);
    ShiftLeftByte(high, |l|);
    BitsOfValue(h + l);
  }

  // ----- sixteen-bit fields on the wire -----

  function High(n: uint16): uint8 { n / 0x100 }

  function Low(n: uint16): uint8 { n % 0x100 }

  function BigEndian(high: uint8, low: uint8): uint16 { high * 0x100 + low }

  lemma BigEndianRoundTrip(n: uint16, high: uint8, low: uint8)
    ensures BigEndian(High(n), Low(n)) == n
    ensures High(BigEndian(high, low)) == high && Low(BigEndian(high, low)) == low
  {}

  // ----- wrapping arithmetic -----

  function Increment8(n: uint8): uint8 { (n + 1) % 0x100 }

  function Increment16(n: uint16): uint16 { (n + 1) % 0x1_0000 }

  /** Unsigned subtraction of a 32-bit counter, valid across its wrap. */
  function Elapsed32(now: uint32, start: uint32): uint32 { (now - start) % 0x1_0000_0000 }
}
