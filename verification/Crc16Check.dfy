/** The published check value of CRC-16/CCITT-FALSE, which fixes its start, its generator and both bit orders. */
module Crc16Check {
  import opened Words
  import opened Gf2
  import opened Crc16
  import opened Crc16Order

  /** The register after one more byte: the byte enters at the top, and eight steps follow. */
  function Eight(a: Poly): Poly {
    TimesX(TimesX(TimesX(TimesX(TimesX(TimesX(TimesX(TimesX(a))))))))
  }

  lemma PackStepN(r: Register, n: nat)
    requires n == 8
    ensures Pack(StepN(r, n)) == Eight(Pack(r))
  {
    hide Step, TimesX, Pack;
    PackStep(r);
    PackStep(StepN(r, n - 7));
    PackStep(StepN(r, n - 6));
    PackStep(StepN(r, n - 5));
    PackStep(StepN(r, n - 4));
    PackStep(StepN(r, n - 3));
    PackStep(StepN(r, n - 2));
    PackStep(StepN(r, n - 1));
    assert StepN(r, n - 8) == r;
  }

  /** What a byte of the given digits makes of the register. */
  function Enter(a: Poly, d: seq<bool>): Poly
    requires |d| == 8
  {
    a.(b0 := a.b0 != d[0], b1 := a.b1 != d[1], b2 := a.b2 != d[2], b3 := a.b3 != d[3],
       b4 := a.b4 != d[4], b5 := a.b5 != d[5], b6 := a.b6 != d[6], b7 := a.b7 != d[7])
  }

  lemma PackEnter(r: Register, d: seq<bool>)
    requires |d| == 8
    ensures Pack(Xor(r, d + Zeros(8))) == Enter(Pack(r), d)
  {}

  lemma OneMore(data: seq<uint8>, last: uint8, before: Poly, d: seq<bool>, after: Poly)
    requires Pack(Crc(data)) == before && ByteBits(last) == d
    requires Eight(Enter(before, d)) == after
    ensures Pack(Crc(data + [last])) == after
  {
    hide Pack, Eight, Enter, ByteBits, StepN, Xor;
    assert (data + [last])[..|data|] == data;
    PackEnter(Crc(data), d);
    PackStepN(Xor(Crc(data), d + Zeros(8)), BitsPerByte());
  }

  lemma Bits31()
    ensures Bits(0x31, 8) == [F, F, T, T, F, F, F, T]
  {}

  lemma Bits32()
    ensures Bits(0x32, 8) == [F, F, T, T, F, F, T, F]
  {}

  lemma Bits33()
    ensures Bits(0x33, 8) == [F, F, T, T, F, F, T, T]
  {}

  lemma Bits34()
    ensures Bits(0x34, 8) == [F, F, T, T, F, T, F, F]
  {}

  lemma Bits35()
    ensures Bits(0x35, 8) == [F, F, T, T, F, T, F, T]
  {}

  lemma Bits36()
    ensures Bits(0x36, 8) == [F, F, T, T, F, T, T, F]
  {}

  lemma Bits37()
    ensures Bits(0x37, 8) == [F, F, T, T, F, T, T, T]
  {}

  lemma Bits38()
    ensures Bits(0x38, 8) == [F, F, T, T, T, F, F, F]
  {}

  lemma Bits39()
    ensures Bits(0x39, 8) == [F, F, T, T, T, F, F, T]
  {}

  lemma Bits29()
    ensures Bits(0x29, 8) == [F, F, T, F, T, F, F, T]
  {}

  lemma BitsB1()
    ensures Bits(0xB1, 8) == [T, F, T, T, F, F, F, T]
  {}

  lemma Nothing()
    ensures Pack(Crc([])) == Poly(T, T, T, T, T, T, T, T, T, T, T, T, T, T, T, T)
  {}

  lemma FirstThree()
    ensures Pack(Crc([0x31, 0x32, 0x33])) == Poly(F, T, F, T, T, F, T, T, T, T, F, F, T, T, T, F)
  {
    hide Crc, Bits;
    Nothing();
    Bits31();
    OneMore([], 0x31, Poly(T, T, T, T, T, T, T, T, T, T, T, T, T, T, T, T),
      [F, F, T, T, F, F, F, T], Poly(T, T, F, F, F, T, T, T, T, F, F, F, F, F, T, F));
    assert [] + [0x31] == [0x31];
    Bits32();
    OneMore([0x31], 0x32, Poly(T, T, F, F, F, T, T, T, T, F, F, F, F, F, T, F),
      [F, F, T, T, F, F, T, F], Poly(F, F, T, T, T, T, F, T, T, F, T, T, T, F, T, F));
    assert [0x31] + [0x32] == [0x31, 0x32];
    Bits33();
    OneMore([0x31, 0x32], 0x33, Poly(F, F, T, T, T, T, F, T, T, F, T, T, T, F, T, F),
      [F, F, T, T, F, F, T, T], Poly(F, T, F, T, T, F, T, T, T, T, F, F, T, T, T, F));
    assert [0x31, 0x32] + [0x33] == [0x31, 0x32, 0x33];
  }

  lemma FirstSix()
    ensures Pack(Crc([0x31, 0x32, 0x33, 0x34, 0x35, 0x36])) == Poly(F, F, T, F, T, T, T, F, T, T, T, T, F, T, F, F)
  {
    hide Crc, Bits;
    FirstThree();
    Bits34();
    OneMore([0x31, 0x32, 0x33], 0x34, Poly(F, T, F, T, T, F, T, T, T, T, F, F, T, T, T, F),
      [F, F, T, T, F, T, F, F], Poly(F, T, F, T, F, F, T, T, F, T, F, F, T, F, F, T));
    assert [0x31, 0x32, 0x33] + [0x34] == [0x31, 0x32, 0x33, 0x34];
    Bits35();
    OneMore([0x31, 0x32, 0x33, 0x34], 0x35, Poly(F, T, F, T, F, F, T, T, F, T, F, F, T, F, F, T),
      [F, F, T, T, F, T, F, T], Poly(F, T, F, F, F, T, F, T, F, T, T, F, F, F, F, F));
    assert [0x31, 0x32, 0x33, 0x34] + [0x35] == [0x31, 0x32, 0x33, 0x34, 0x35];
    Bits36();
    OneMore([0x31, 0x32, 0x33, 0x34, 0x35], 0x36, Poly(F, T, F, F, F, T, F, T, F, T, T, F, F, F, F, F),
      [F, F, T, T, F, T, T, F], Poly(F, F, T, F, T, T, T, F, T, T, T, T, F, T, F, F));
    assert [0x31, 0x32, 0x33, 0x34, 0x35] + [0x36] == [0x31, 0x32, 0x33, 0x34, 0x35, 0x36];
  }

  lemma AllNine()
    ensures Pack(Crc([0x31, 0x32, 0x33, 0x34, 0x35, 0x36, 0x37, 0x38, 0x39])) ==
      Poly(F, F, T, F, T, F, F, T, T, F, T, T, F, F, F, T)
  {
    hide Crc, Bits;
    FirstSix();
    Bits37();
    OneMore([0x31, 0x32, 0x33, 0x34, 0x35, 0x36], 0x37, Poly(F, F, T, F, T, T, T, F, T, T, T, T, F, T, F, F),
      [F, F, T, T, F, T, T, T], Poly(F, T, T, T, F, T, T, T, F, F, F, T, T, F, F, F));
    assert [0x31, 0x32, 0x33, 0x34, 0x35, 0x36] + [0x37] == [0x31, 0x32, 0x33, 0x34, 0x35, 0x36, 0x37];
    Bits38();
    OneMore([0x31, 0x32, 0x33, 0x34, 0x35, 0x36, 0x37], 0x38, Poly(F, T, T, T, F, T, T, T, F, F, F, T, T, F, F, F),
      [F, F, T, T, T, F, F, F], Poly(T, F, T, F, F, F, F, T, F, F, T, F, T, F, T, T));
    assert [0x31, 0x32, 0x33, 0x34, 0x35, 0x36, 0x37] + [0x38] == [0x31, 0x32, 0x33, 0x34, 0x35, 0x36, 0x37, 0x38];
    Bits39();
    OneMore([0x31, 0x32, 0x33, 0x34, 0x35, 0x36, 0x37, 0x38], 0x39,
      Poly(T, F, T, F, F, F, F, T, F, F, T, F, T, F, T, T),
      [F, F, T, T, T, F, F, T], Poly(F, F, T, F, T, F, F, T, T, F, T, T, F, F, F, T));
    assert [0x31, 0x32, 0x33, 0x34, 0x35, 0x36, 0x37, 0x38] + [0x39] ==
      [0x31, 0x32, 0x33, 0x34, 0x35, 0x36, 0x37, 0x38, 0x39];
  }

  /** The CRC of the nine characters "123456789" is 0x29B1. */
  lemma CheckValue()
    ensures Number(Crc([0x31, 0x32, 0x33, 0x34, 0x35, 0x36, 0x37, 0x38, 0x39])) == 0x29B1
  {
    var data: seq<uint8> := [0x31, 0x32, 0x33, 0x34, 0x35, 0x36, 0x37, 0x38, 0x39];
    var check: Register := Bits(0x29B1, 16);
    hide Crc, Bits;
    AllNine();
    Bits29();
    BitsB1();
    BitsOfBytes(0x29, 0xB1);
    assert BigEndian(0x29, 0xB1) == 0x29B1;
    assert Pack(Crc(data)) == Pack(check);
    PackInjective(Crc(data), check);
    Pow2Words();
    ValueOfBits(0x29B1, 16);
  }
}
