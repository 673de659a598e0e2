/** Which corruptions of a sealed message the CRC detects. */
module Crc16Detection {
  import opened Words
  import opened Gf2
  import opened Crc16
  import opened Crc16Register
  import opened Crc16Remainder
  import opened Crc16Order

  /** The bit positions in which two byte strings differ. */
  function Errors(u: seq<uint8>, v: seq<uint8>): (e: seq<bool>)
    requires |u| == |v|
    ensures |e| == 8 * |u|
  {
    Xor(BitsOf(u), BitsOf(v))
  }

  function Distance(u: seq<uint8>, v: seq<uint8>): nat
    requires |u| == |v|
  {
    Weight(Errors(u, v))
  }

  /** The register left by an error pattern alone. */
  function Syndrome(e: seq<bool>): Register {
    FeedBits(Zeros(16), e)
  }

  /** A corruption of a sealed string goes unnoticed exactly when its syndrome is zero. */
  lemma UndetectedIffZeroSyndrome(u: seq<uint8>, v: seq<uint8>)
    requires |u| == |v| && Sealed(u)
    ensures Sealed(v) <==> Syndrome(Errors(u, v)) == Zeros(16)
  {
    hide FeedBits, BitsOf, CrcFrom, Sealed;
    assert |u| >= 2 by { SealedLength(u); }
    ZeroResidue(u);
    ZeroResidue(v);
    BytesAreBits(ONES, u);
    BytesAreBits(ONES, v);
    FeedBitsLinear(ONES, ONES, BitsOf(u), BitsOf(v));
    XorIsZero(ONES, ONES);
    XorZeros(Crc(v));
  }

  lemma SealedLength(u: seq<uint8>)
    requires Sealed(u)
    ensures |u| >= 2
  {}

  lemma SameBits(u: seq<uint8>, v: seq<uint8>)
    requires |u| == |v|
    ensures Distance(u, v) == 0 <==> u == v
  {
    hide BitsOf;
    XorIsZero(BitsOf(u), BitsOf(v));
    WeightZero(Errors(u, v));
    if Distance(u, v) == 0 {
      BitsOfInjective(u, v);
    }
  }

  lemma {:induction false} WeightZero(e: seq<bool>)
    ensures Weight(e) == 0 <==> e == Zeros(|e|)
  {
    if e != [] {
      var n := |e| - 1;
      WeightZero(e[..n]);
      assert Zeros(|e|)[..n] == Zeros(n);
      assert e == e[..n] + [e[n]];
      assert Zeros(|e|) == Zeros(n) + [false];
    }
  }

  // ----- an odd number of flipped bits -----

  function Odd(b: seq<bool>): bool {
    if b == [] then false else Odd(b[..|b| - 1]) != b[|b| - 1]
  }

  lemma {:induction false} OddWeight(b: seq<bool>)
    ensures Odd(b) <==> Weight(b) % 2 == 1
  {
    if b != [] {
      OddWeight(b[..|b| - 1]);
    }
  }

  lemma {:induction false} OddXor(a: seq<bool>, b: seq<bool>)
    requires |a| == |b|
    ensures Odd(Xor(a, b)) == (Odd(a) != Odd(b))
  {
    if a != [] {
      var n := |a| - 1;
      OddXor(a[..n], b[..n]);
      assert Xor(a, b)[..n] == Xor(a[..n], b[..n]);
    }
  }

  lemma {:induction false} OddHead(b: seq<bool>)
    requires b != []
    ensures Odd(b) == (b[0] != Odd(b[1..]))
  {
    if |b| > 1 {
      OddHead(b[..|b| - 1]);
      assert b[1..][..|b| - 2] == b[..|b| - 1][1..];
    }
  }

  lemma {:induction false} OddZeros(n: nat)
    ensures !Odd(Zeros(n))
  {
    if n > 0 {
      OddZeros(n - 1);
      assert Zeros(n)[..n - 1] == Zeros(n - 1);
    }
  }

  lemma {:induction false} OddConcat(a: seq<bool>, b: seq<bool>)
    ensures Odd(a + b) == (Odd(a) != Odd(b))
  {
    if b == [] {
      assert a + b == a;
    } else {
      OddConcat(a, b[..|b| - 1]);
      assert (a + b)[..|a + b| - 1] == a + b[..|b| - 1];
    }
  }

  lemma OddPlace(n: nat, rest: seq<bool>)
    ensures Odd(Zeros(n) + ([true] + rest)) == !Odd(rest)
  {
    OddZeros(n);
    OddConcat(Zeros(n), [true] + rest);
    OddHead([true] + rest);
  }

  lemma OddTaps()
    ensures Odd(TAPS) && !Odd(ONES)
  {
    hide Odd;
    var low := Zeros(4) + ([true] + Zeros(0));
    var middle := Zeros(6) + ([true] + low);
    assert TAPS == Zeros(3) + ([true] + middle);
    OddPlace(3, middle);
    OddPlace(6, low);
    OddPlace(4, Zeros(0));
    OddZeros(0);
    assert ONES == ONES[..8] + ONES[..8];
    OddConcat(ONES[..8], ONES[..8]);
  }

  /** The generator has an even number of terms, so a step keeps parity. */
  lemma FeedParity(r: Register, b: bool)
    ensures Odd(Feed(r, b)) == (Odd(r) != b)
  {
    hide Odd;
    var shifted := r[1..] + [false];
    OddHead(r);
    assert Odd(shifted) == Odd(r[1..]) by { OddLast(r[1..], false); }
    OddXor(shifted, Scale(r[0] != b, TAPS));
    OddTaps();
    OddZeros(16);
  }

  lemma OddLast(a: seq<bool>, b: bool)
    ensures Odd(a + [b]) == (Odd(a) != b)
  {
    assert (a + [b])[..|a|] == a;
  }

  lemma {:induction false} FeedBitsParity(r: Register, m: seq<bool>)
    ensures Odd(FeedBits(r, m)) == (Odd(r) != Odd(m))
  {
    if m != [] {
      FeedBitsParity(r, m[..|m| - 1]);
      FeedParity(FeedBits(r, m[..|m| - 1]), m[|m| - 1]);
    }
  }

  /** A sealed string has an even number of one bits. */
  lemma SealedIsEven(u: seq<uint8>)
    requires Sealed(u)
    ensures Weight(BitsOf(u)) % 2 == 0
  {
    hide Odd, BitsOf, FeedBits, CrcFrom;
    ZeroResidue(u);
    BytesAreBits(ONES, u);
    FeedBitsParity(ONES, BitsOf(u));
    OddTaps();
    OddZeros(16);
    OddWeight(BitsOf(u));
  }

  lemma OddErrorsDetected(u: seq<uint8>, v: seq<uint8>)
    requires |u| == |v| && Sealed(u) && Distance(u, v) % 2 == 1
    ensures !Sealed(v)
  {
    hide Odd, FeedBits, Sealed;
    UndetectedIffZeroSyndrome(u, v);
    FeedBitsParity(Zeros(16), Errors(u, v));
    OddZeros(16);
    OddWeight(Errors(u, v));
  }

  // ----- two flipped bits -----

  /** The register with only its top bit set: a single one bit about to be stepped. */
  const LEAD: Register := [true] + Zeros(15)

  lemma FeedOne(r: Register)
    ensures Feed(r, true) == Step(Xor(r, LEAD))
  {}

  lemma FeedOneOnZero()
    ensures Feed(Zeros(16), true) == StepN(LEAD, 1)
  {
    FeedOne(Zeros(16));
    XorZeros(LEAD);
    assert StepN(LEAD, 1) == Step(StepN(LEAD, 0));
  }

  lemma LeadIsPower(n: nat)
    requires n == 15
    ensures LEAD == XPow(n)
  {
    hide Step;
    OneShifts(n, n);
  }

  lemma {:induction false} OneShifts(k: nat, n: nat)
    requires k <= n == 15
    ensures XPow(k) == Zeros(15 - k) + [true] + Zeros(k)
  {
    if k > 0 {
      OneShifts(k - 1, n);
      var r: Register := Zeros(16 - k) + [true] + Zeros(k - 1);
      assert Step(r) == r[1..] + [false];
      assert r[1..] + [false] == Zeros(15 - k) + [true] + Zeros(k);
    } else {
      assert ONE == Zeros(15) + [true] + Zeros(0);
    }
  }

  /** The single bit's orbit returns with the order of x. */
  lemma LeadReturns(d: nat, n: nat)
    requires n == 15
    ensures StepN(LEAD, d) == LEAD <==> d % ORDER == 0
  {
    hide StepN, Step;
    LeadIsPower(n);
    StepNSum(ONE, n, d);
    StepNSum(ONE, d, n);
    OrderOfX(d);
    if StepN(LEAD, d) == LEAD {
      StepNInjective(XPow(d), ONE, n);
    }
  }

  /** An error pattern of length n with ones at p and q only. */
  function TwoBits(n: nat, p: nat, q: nat): (e: seq<bool>)
    ensures |e| == n
  {
    seq(n, i => i == p || i == q)
  }

  /** Two flipped bits escape exactly when their distance is a multiple of 32767. */
  lemma TwoBitSyndrome(n: nat, p: nat, q: nat)
    requires p < q < n
    ensures Syndrome(TwoBits(n, p, q)) == Zeros(16) <==> (q - p) % ORDER == 0
  {
    hide FeedBits, Feed, Step, StepN;
    var e := TwoBits(n, p, q);
    var d := q - p;
    assert e == Zeros(p) + ([true] + (Zeros(d - 1) + ([true] + Zeros(n - q - 1))));
    Leading(Zeros(16), p, [true] + (Zeros(d - 1) + ([true] + Zeros(n - q - 1))));
    StepNZeros(p);
    FeedHead(Zeros(16), true, Zeros(d - 1) + ([true] + Zeros(n - q - 1)));
    FeedOneOnZero();
    Leading(StepN(LEAD, 1), d - 1, [true] + Zeros(n - q - 1));
    StepNSum(LEAD, 1, d - 1);
    FeedHead(StepN(LEAD, d), true, Zeros(n - q - 1));
    FeedOne(StepN(LEAD, d));
    var r := Step(Xor(StepN(LEAD, d), LEAD));
    FeedZeros(r, n - q - 1);
    StepNIsZero(r, n - q - 1);
    StepIsZero(Xor(StepN(LEAD, d), LEAD));
    XorIsZero(StepN(LEAD, d), LEAD);
    LeadReturns(d, 15);
  }

  lemma StepIsZero(r: Register)
    ensures Step(r) == Zeros(16) <==> r == Zeros(16)
  {
    StepNIsZero(r, 1);
    assert StepN(r, 1) == Step(StepN(r, 0));
  }

  lemma Leading(r: Register, k: nat, rest: seq<bool>)
    ensures FeedBits(r, Zeros(k) + rest) == FeedBits(StepN(r, k), rest)
  {
    FeedConcat(r, Zeros(k), rest);
    FeedZeros(r, k);
  }

  lemma FeedHead(r: Register, b: bool, rest: seq<bool>)
    ensures FeedBits(r, [b] + rest) == FeedBits(Feed(r, b), rest)
  {
    FeedConcat(r, [b], rest);
    assert FeedBits(r, [b]) == Feed(FeedBits(r, [b][..0]), b);
  }

  lemma {:induction false} OnePosition(e: seq<bool>) returns (p: nat)
    requires Weight(e) == 1
    ensures p < |e| && forall i :: 0 <= i < |e| ==> e[i] == (i == p)
  {
    var n := |e| - 1;
    if e[n] {
      WeightZero(e[..n]);
      p := n;
      assert forall i :: 0 <= i < n ==> e[i] == e[..n][i];
    } else {
      p := OnePosition(e[..n]);
      assert forall i :: 0 <= i < n ==> e[i] == e[..n][i];
    }
  }

  lemma {:induction false} TwoPositions(e: seq<bool>) returns (p: nat, q: nat)
    requires Weight(e) == 2
    ensures p < q < |e| && e == TwoBits(|e|, p, q)
  {
    var n := |e| - 1;
    if e[n] {
      p := OnePosition(e[..n]);
      q := n;
      assert forall i :: 0 <= i < n ==> e[i] == e[..n][i];
    } else {
      p, q := TwoPositions(e[..n]);
      assert forall i :: 0 <= i < n ==> e[i] == e[..n][i];
    }
  }

  /**
   * Hamming distance: within 4095 bytes, two different sealed strings of one length differ in at
   * least four bits.
   */
  lemma HammingDistanceFour(u: seq<uint8>, v: seq<uint8>)
    requires |u| == |v| && 8 * |u| <= ORDER
    requires Sealed(u) && Sealed(v) && u != v
    ensures Distance(u, v) >= 4
  {
    hide Sealed, Weight, Odd, BitsOf, FeedBits;
    var w := Distance(u, v);
    SameBits(u, v);
    if w == 2 {
      var p, q := TwoPositions(Errors(u, v));
      TwoBitSyndrome(8 * |u|, p, q);
      UndetectedIffZeroSyndrome(u, v);
    } else if w % 2 == 1 {
      OddErrorsDetected(u, v);
    }
  }

  // ----- the bound of 4095 bytes is exact -----

  function BytesOf(b: seq<bool>): (data: seq<uint8>)
    requires |b| % 8 == 0
    ensures 8 * |data| == |b|
  {
    if b == [] then [] else BytesOf(b[..|b| - 8]) + [Byte(b[|b| - 8..])]
  }

  lemma {:induction false} BitsOfBytesOf(b: seq<bool>)
    requires |b| % 8 == 0
    ensures BitsOf(BytesOf(b)) == b
  {
    if b != [] {
      hide Byte, ByteBits;
      var front, last := b[..|b| - 8], b[|b| - 8..];
      BitsOfBytesOf(front);
      ByteRoundTrip(0, last);
      var data := BytesOf(b);
      assert data[..|data| - 1] == BytesOf(front) && data[|data| - 1] == Byte(last);
    }
  }

  lemma {:induction false} WeightConcat(a: seq<bool>, b: seq<bool>)
    ensures Weight(a + b) == Weight(a) + Weight(b)
  {
    if b == [] {
      assert a + b == a;
    } else {
      WeightConcat(a, b[..|b| - 1]);
      assert (a + b)[..|a + b| - 1] == a + b[..|b| - 1];
    }
  }

  lemma WeightPlace(n: nat, rest: seq<bool>)
    ensures Weight(Zeros(n) + ([true] + rest)) == 1 + Weight(rest)
  {
    WeightZero(Zeros(n));
    WeightConcat(Zeros(n), [true] + rest);
    WeightConcat([true], rest);
    assert Weight([true]) == Weight([true][..0]) + 1;
  }

  lemma WeightTwoBits(n: nat, p: nat, q: nat)
    requires p < q < n
    ensures Weight(TwoBits(n, p, q)) == 2
  {
    hide Weight;
    var rest := Zeros(q - p - 1) + ([true] + Zeros(n - q - 1));
    assert TwoBits(n, p, q) == Zeros(p) + ([true] + rest);
    WeightPlace(p, rest);
    WeightPlace(q - p - 1, Zeros(n - q - 1));
    WeightZero(Zeros(n - q - 1));
  }

  lemma XorCancel(a: seq<bool>, e: seq<bool>)
    requires |a| == |e|
    ensures Xor(a, Xor(a, e)) == e
  {}

  /** From 4096 bytes on, every sealed string has a sealed neighbour two bits away. */
  lemma DistanceTwoBeyond(u: seq<uint8>) returns (v: seq<uint8>)
    requires Sealed(u) && 8 * |u| > ORDER
    ensures |v| == |u| && Sealed(v) && Distance(u, v) == 2
  {
    hide Sealed, Weight, BitsOf, FeedBits, BytesOf;
    var n := 8 * |u|;
    var e := TwoBits(n, 0, ORDER);
    v := BytesOf(Xor(BitsOf(u), e));
    BitsOfBytesOf(Xor(BitsOf(u), e));
    XorCancel(BitsOf(u), e);
    UndetectedIffZeroSyndrome(u, v);
    TwoBitSyndrome(n, 0, ORDER);
    WeightTwoBits(n, 0, ORDER);
  }

  // ----- bursts -----

  /** Every differing bit lies in one window of sixteen consecutive positions. */
  predicate Burst(u: seq<uint8>, v: seq<uint8>, start: nat)
    requires |u| == |v|
  {
    forall i :: 0 <= i < 8 * |u| && !(start <= i < start + 16) ==> BitsOf(u)[i] == BitsOf(v)[i]
  }

  /** A nonzero pattern inside sixteen bits leaves a nonzero register, whatever zeros surround it. */
  lemma WindowSyndrome(before: nat, x: Register, after: nat)
    requires Syndrome(Zeros(before) + (x + Zeros(after))) == Zeros(16)
    ensures x == Zeros(16)
  {
    hide FeedBits, StepN;
    Leading(Zeros(16), before, x + Zeros(after));
    StepNZeros(before);
    FeedConcat(Zeros(16), x, Zeros(after));
    FeedZeros(FeedBits(Zeros(16), x), after);
    StepNIsZero(FeedBits(Zeros(16), x), after);
    AbsorbWord(Zeros(16), x, 16);
  }

  /** A burst of up to sixteen bits, byte-aligned or not, at any length, is always detected. */
  lemma BurstDetected(u: seq<uint8>, v: seq<uint8>, start: nat)
    requires |u| == |v| && Burst(u, v, start)
    requires Sealed(u) && Sealed(v)
    ensures u == v
  {
    hide Sealed, BitsOf, FeedBits, Weight;
    SealedLength(u);
    UndetectedIffZeroSyndrome(u, v);
    var e, n := Errors(u, v), 8 * |u|;
    var from := if start + 16 <= n then start else n - 16;
    var x: Register := e[from..from + 16];
    assert forall i :: 0 <= i < n && !(from <= i < from + 16) ==> !e[i];
    assert e == Zeros(from) + (x + Zeros(n - from - 16));
    WindowSyndrome(from, x, n - from - 16);
    assert e == Zeros(n);
    XorIsZero(BitsOf(u), BitsOf(v));
    BitsOfInjective(u, v);
  }
}
