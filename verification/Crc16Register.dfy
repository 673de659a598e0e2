/** The CRC register as a polynomial over GF(2) of degree below 16, and what the loops do to it. */
module Crc16Register {
  import opened Words
  import opened Gf2
  import opened Crc16

  /** One more message bit b: the remainder of r*x + b*x^16. */
  function Feed(r: Register, b: bool): Register
  {
    Xor(r[1..] + [false], Scale(r[0] != b, TAPS))
  }

  /** The register after a bit string, first bit first. */
  function FeedBits(r: Register, m: seq<bool>): Register
  {
    if m == [] then r else Feed(FeedBits(r, m[..|m| - 1]), m[|m| - 1])
  }

  // ----- linearity and injectivity -----

  lemma FeedLinear(u: Register, v: Register, a: bool, b: bool)
    ensures Feed(Xor(u, v), a != b) == Xor(Feed(u, a), Feed(v, b))
  {}

  /** The register is linear in its start value and the message together. */
  lemma {:induction false} FeedBitsLinear(u: Register, v: Register, a: seq<bool>, b: seq<bool>)
    requires |a| == |b|
    ensures FeedBits(Xor(u, v), Xor(a, b)) == Xor(FeedBits(u, a), FeedBits(v, b))
  {
    if a != [] {
      var n := |a| - 1;
      FeedBitsLinear(u, v, a[..n], b[..n]);
      assert Xor(a, b)[..n] == Xor(a[..n], b[..n]);
      FeedLinear(FeedBits(u, a[..n]), FeedBits(v, b[..n]), a[n], b[n]);
    }
  }

  lemma {:induction false} StepNLinear(u: Register, v: Register, n: nat)
    ensures StepN(Xor(u, v), n) == Xor(StepN(u, n), StepN(v, n))
  {
    if n > 0 {
      StepNLinear(u, v, n - 1);
      FeedLinear(StepN(u, n - 1), StepN(v, n - 1), false, false);
    }
  }

  /** The constant term of the generator makes the step reversible. */
  lemma StepInjective(u: Register, v: Register)
    requires Step(u) == Step(v)
    ensures u == v
  {
    assert Step(u)[15] == u[0] && Step(v)[15] == v[0];
    forall i | 0 < i < 16
      ensures u[i] == v[i]
    {
      assert Step(u)[i - 1] == (u[i] != (u[0] && TAPS[i - 1]));
      assert Step(v)[i - 1] == (v[i] != (v[0] && TAPS[i - 1]));
    }
  }

  lemma {:induction false} StepNInjective(u: Register, v: Register, n: nat)
    requires StepN(u, n) == StepN(v, n)
    ensures u == v
  {
    if n > 0 {
      StepInjective(StepN(u, n - 1), StepN(v, n - 1));
      StepNInjective(u, v, n - 1);
    }
  }

  lemma {:induction false} StepNZeros(n: nat)
    ensures StepN(Zeros(16), n) == Zeros(16)
  {
    if n > 0 {
      StepNZeros(n - 1);
    }
  }

  lemma {:induction false} StepNSum(r: Register, m: nat, n: nat)
    ensures StepN(StepN(r, m), n) == StepN(r, m + n)
  {
    if n > 0 {
      StepNSum(r, m, n - 1);
    }
  }

  lemma {:induction false} FeedConcat(r: Register, a: seq<bool>, b: seq<bool>)
    ensures FeedBits(r, a + b) == FeedBits(FeedBits(r, a), b)
  {
    if b == [] {
      assert a + b == a;
    } else {
      FeedConcat(r, a, b[..|b| - 1]);
      assert (a + b)[..|a + b| - 1] == a + b[..|b| - 1];
    }
  }

  lemma {:induction false} FeedZeros(r: Register, n: nat)
    ensures FeedBits(r, Zeros(n)) == StepN(r, n)
  {
    if n > 0 {
      FeedZeros(r, n - 1);
      assert Zeros(n)[..n - 1] == Zeros(n - 1);
    }
  }

  lemma AbsorbOne(r: Register, x: Register)
    ensures Step(Xor(r, x)) == Xor(Feed(r, x[0]), x[1..] + [false])
  {}

  /** Stepping with a pending word in the register is feeding the word's bits one at a time. */
  lemma {:induction false} Absorb(r: Register, x: Register, n: nat)
    requires n <= 16
    ensures StepN(Xor(r, x), n) == Xor(FeedBits(r, x[..n]), x[n..] + Zeros(n))
  {
    if n == 0 {
      assert x[0..] + Zeros(0) == x;
    } else {
      var rest := x[n - 1..] + Zeros(n - 1);
      Absorb(r, x, n - 1);
      AbsorbOne(FeedBits(r, x[..n - 1]), rest);
      assert x[..n][..n - 1] == x[..n - 1];
      assert rest[1..] + [false] == x[n..] + Zeros(n);
    }
  }

  lemma StepNIsZero(r: Register, n: nat)
    ensures StepN(r, n) == Zeros(16) <==> r == Zeros(16)
  {
    StepNZeros(n);
    if StepN(r, n) == Zeros(16) {
      StepNInjective(r, Zeros(16), n);
    }
  }

  /** A whole word absorbed: only the exclusive or of register and word matters. */
  lemma AbsorbWord(r: Register, x: Register, n: nat)
    requires n == 16
    ensures FeedBits(r, x) == StepN(Xor(r, x), n)
    ensures FeedBits(r, x) == Zeros(16) <==> r == x
  {
    hide FeedBits, StepN;
    Absorb(r, x, n);
    assert x[..n] == x && x[n..] + Zeros(n) == Zeros(n);
    XorZeros(FeedBits(r, x));
    StepNIsZero(Xor(r, x), n);
    XorIsZero(r, x);
  }

  // ----- the byte loop, bit by bit -----

  /** The bits of a byte string in transmission order. */
  function BitsOf(data: seq<uint8>): (r: seq<bool>)
    ensures |r| == 8 * |data|
  {
    if data == [] then [] else BitsOf(data[..|data| - 1]) + ByteBits(data[|data| - 1])
  }

  lemma ByteIsBits(r: Register, data: uint8, n: nat)
    requires n == BitsPerByte()
    ensures ByteStep(r, data) == FeedBits(r, ByteBits(data))
  {
    var x: Register := ByteBits(data) + Zeros(n);
    hide StepN, FeedBits;
    Absorb(r, x, n);
    assert x[..n] == ByteBits(data) && x[n..] + Zeros(n) == Zeros(16);
    XorZeros(FeedBits(r, ByteBits(data)));
  }

  /** The byte loop and the bit-serial register agree on every byte string. */
  lemma {:induction false} BytesAreBits(r: Register, data: seq<uint8>)
    ensures CrcFrom(r, data) == FeedBits(r, BitsOf(data))
  {
    if data != [] {
      var front := data[..|data| - 1];
      BytesAreBits(r, front);
      ByteIsBits(FeedBits(r, BitsOf(front)), data[|data| - 1], 8);
      FeedConcat(r, BitsOf(front), ByteBits(data[|data| - 1]));
    }
  }

  lemma Associative<T>(a: seq<T>, b: seq<T>, c: seq<T>)
    ensures (a + b) + c == a + (b + c)
  {}

  lemma {:induction false} BitsOfConcat(a: seq<uint8>, b: seq<uint8>)
    ensures BitsOf(a + b) == BitsOf(a) + BitsOf(b)
  {
    hide ByteBits;
    if b == [] {
      assert a + b == a;
    } else {
      var front, last := b[..|b| - 1], ByteBits(b[|b| - 1]);
      BitsOfConcat(a, front);
      assert (a + b)[..|a + b| - 1] == a + front;
      Associative(BitsOf(a), BitsOf(front), last);
    }
  }

  lemma BitsOfSplit(a: seq<uint8>)
    requires a != []
    ensures var n := |a| - 1;
      BitsOf(a)[..8 * n] == BitsOf(a[..n]) && BitsOf(a)[8 * n..] == ByteBits(a[n])
  {
    hide ByteBits;
    var n := |a| - 1;
    var front, last := BitsOf(a[..n]), ByteBits(a[n]);
    assert (front + last)[..|front|] == front && (front + last)[|front|..] == last;
  }

  lemma {:induction false} BitsOfInjective(a: seq<uint8>, b: seq<uint8>)
    requires |a| == |b| && BitsOf(a) == BitsOf(b)
    ensures a == b
  {
    hide ByteBits, BitsOf, Byte;
    if a != [] {
      var n := |a| - 1;
      BitsOfSplit(a);
      BitsOfSplit(b);
      BitsOfInjective(a[..n], b[..n]);
      ByteRoundTrip(a[n], ByteBits(a[n]));
      ByteRoundTrip(b[n], ByteBits(b[n]));
      assert a == a[..n] + [a[n]] && b == b[..n] + [b[n]];
    }
  }
}
