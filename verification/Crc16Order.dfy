/** The order of x modulo the generator: after how many steps the register's orbit returns. */
module Crc16Order {
  import opened Crc16
  import opened Crc16Register

  const T := true
  const F := false

  const ONE: Register := [F, F, F, F, F, F, F, F, F, F, F, F, F, F, F, T]

  /** x^n modulo the generator. */
  function XPow(n: nat): Register {
    StepN(ONE, n)
  }

  // ----- the register as a record, on which the powers of x are computed -----

  datatype Poly = Poly(
    b0: bool, b1: bool, b2: bool, b3: bool, b4: bool, b5: bool, b6: bool, b7: bool,
    b8: bool, b9: bool, b10: bool, b11: bool, b12: bool, b13: bool, b14: bool, b15: bool)

  function Pack(r: Register): Poly {
    Poly(r[0], r[1], r[2], r[3], r[4], r[5], r[6], r[7], r[8], r[9], r[10], r[11], r[12], r[13], r[14], r[15])
  }

  function TimesX(a: Poly): Poly {
    Poly(a.b1, a.b2, a.b3, a.b4 != a.b0, a.b5, a.b6, a.b7, a.b8,
      a.b9, a.b10, a.b11 != a.b0, a.b12, a.b13, a.b14, a.b15, a.b0)
  }

  /** a * a modulo the generator, which over GF(2) is a linear map of the coefficients. */
  function Square(a: Poly): Poly {
    Poly(
      a.b2,
      ((a.b2 != a.b4) != a.b6) != a.b8,
      a.b3,
      ((a.b3 != a.b5) != a.b7) != a.b9,
      (a.b0 != a.b2) != a.b4,
      (a.b0 != a.b2) != a.b10,
      (a.b1 != a.b3) != a.b5,
      ((a.b0 != a.b1) != a.b3) != a.b11,
      ((a.b0 != a.b2) != a.b4) != a.b6,
      (((a.b0 != a.b1) != a.b2) != a.b4) != a.b12,
      ((a.b1 != a.b3) != a.b5) != a.b7,
      ((a.b1 != a.b3) != a.b5) != a.b13,
      a.b0,
      (((a.b0 != a.b2) != a.b4) != a.b6) != a.b14,
      a.b1,
      (((a.b1 != a.b3) != a.b5) != a.b7) != a.b15)
  }

  const UNIT: Poly := Poly(F, F, F, F, F, F, F, F, F, F, F, F, F, F, F, T)

  lemma StepAt(r: Register, j: nat)
    requires j < 16
    ensures Step(r)[j] == ((r[1..] + [false])[j] != (r[0] && TAPS[j]))
  {}

  lemma PackStep(r: Register)
    ensures Pack(Step(r)) == TimesX(Pack(r))
  {
    hide Step;
    StepAt(r, 0); StepAt(r, 1); StepAt(r, 2); StepAt(r, 3); StepAt(r, 4); StepAt(r, 5); StepAt(r, 6); StepAt(r, 7);
    StepAt(r, 8); StepAt(r, 9); StepAt(r, 10); StepAt(r, 11);
    StepAt(r, 12); StepAt(r, 13); StepAt(r, 14); StepAt(r, 15);
  }

  lemma PackInjective(r: Register, s: Register)
    requires Pack(r) == Pack(s)
    ensures r == s
  {}

  lemma PackOne()
    ensures Pack(ONE) == UNIT
  {}

  lemma SquareOfTimesX0(a: Poly)
    ensures var u, v := Square(TimesX(a)), TimesX(TimesX(Square(a)));
      u.b0 == v.b0 && u.b1 == v.b1 && u.b2 == v.b2 && u.b3 == v.b3
  {}

  lemma SquareOfTimesX1(a: Poly)
    ensures var u, v := Square(TimesX(a)), TimesX(TimesX(Square(a)));
      u.b4 == v.b4 && u.b5 == v.b5 && u.b6 == v.b6 && u.b7 == v.b7
  {}

  lemma SquareOfTimesX2(a: Poly)
    ensures var u, v := Square(TimesX(a)), TimesX(TimesX(Square(a)));
      u.b8 == v.b8 && u.b9 == v.b9 && u.b10 == v.b10 && u.b11 == v.b11
  {}

  lemma SquareOfTimesX3(a: Poly)
    ensures var u, v := Square(TimesX(a)), TimesX(TimesX(Square(a)));
      u.b12 == v.b12 && u.b13 == v.b13 && u.b14 == v.b14 && u.b15 == v.b15
  {}

  /** (a*x)^2 == a^2 * x^2. */
  lemma SquareOfTimesX(a: Poly)
    ensures Square(TimesX(a)) == TimesX(TimesX(Square(a)))
  {
    hide Square, TimesX;
    SquareOfTimesX0(a);
    SquareOfTimesX1(a);
    SquareOfTimesX2(a);
    SquareOfTimesX3(a);
  }

  function Pow(n: nat): Poly {
    if n == 0 then UNIT else TimesX(Pow(n - 1))
  }

  lemma SquareUnit()
    ensures Square(UNIT) == UNIT
  {}

  lemma {:induction false} PowDouble(n: nat)
    ensures Pow(2 * n) == Square(Pow(n))
  {
    hide Square, TimesX;
    if n > 0 {
      PowDouble(n - 1);
      SquareOfTimesX(Pow(n - 1));
    } else {
      SquareUnit();
    }
  }

  /** Square and multiply: one more binary digit of the exponent. */
  lemma Next(n: nat, bit: bool, v: Poly, w: Poly)
    requires Pow(n) == v
    requires w == if bit then TimesX(Square(v)) else Square(v)
    ensures Pow(2 * n + (if bit then 1 else 0)) == w
  {
    hide Square, TimesX;
    PowDouble(n);
  }

  lemma First()
    ensures Pow(1) == TimesX(UNIT)
  {
    assert Pow(1) == TimesX(Pow(0));
  }

  lemma {:induction false} PackXPow(n: nat)
    ensures Pack(XPow(n)) == Pow(n)
  {
    hide Pack, TimesX, Step;
    if n > 0 {
      PackXPow(n - 1);
      PackStep(XPow(n - 1));
    } else {
      PackOne();
    }
  }

  /** The register's orbit is back at 1 exactly when the record's is. */
  lemma ReturnsIff(n: nat)
    ensures XPow(n) == ONE <==> Pow(n) == UNIT
  {
    hide *;
    PackXPow(n);
    PackOne();
    if Pow(n) == UNIT {
      PackInjective(XPow(n), ONE);
    }
  }

  // ----- 32767 == 7 * 31 * 151, and the three largest proper divisors -----

  lemma Pow217()
    ensures Pow(217) != UNIT
  {
    hide Pow;
    First();
    var x1 := Poly(F, F, F, F, F, F, F, F, F, F, F, F, F, F, T, F);
    var x3 := Poly(F, F, F, F, F, F, F, F, F, F, F, F, T, F, F, F);
    Next(1, true, x1, x3);
    var x6 := Poly(F, F, F, F, F, F, F, F, F, T, F, F, F, F, F, F);
    Next(3, false, x3, x6);
    var x13 := Poly(F, F, T, F, F, F, F, F, F, F, F, F, F, F, F, F);
    Next(6, true, x6, x13);
    var x27 := Poly(T, F, F, F, T, F, F, T, T, F, T, F, T, F, F, T);
    Next(13, true, x13, x27);
    var x54 := Poly(F, F, F, T, F, F, F, T, F, T, T, F, T, F, F, F);
    Next(27, false, x27, x54);
    var x108 := Poly(F, F, T, T, F, T, T, T, F, T, F, T, F, F, F, F);
    Next(54, false, x54, x108);
    var x217 := Poly(F, T, F, F, T, F, F, F, T, T, T, F, F, F, T, T);
    Next(108, true, x108, x217);
  }

  lemma Pow1057()
    ensures Pow(1057) != UNIT
  {
    hide Pow;
    First();
    var x1 := Poly(F, F, F, F, F, F, F, F, F, F, F, F, F, F, T, F);
    var x2 := Poly(F, F, F, F, F, F, F, F, F, F, F, F, F, T, F, F);
    Next(1, false, x1, x2);
    var x4 := Poly(F, F, F, F, F, F, F, F, F, F, F, T, F, F, F, F);
    Next(2, false, x2, x4);
    var x8 := Poly(F, F, F, F, F, F, F, T, F, F, F, F, F, F, F, F);
    Next(4, false, x4, x8);
    var x16 := Poly(F, F, F, T, F, F, F, F, F, F, T, F, F, F, F, T);
    Next(8, false, x8, x16);
    var x33 := Poly(F, T, T, F, T, T, T, F, F, T, T, F, F, F, F, F);
    Next(16, true, x16, x33);
    var x66 := Poly(T, T, F, F, F, F, F, T, T, T, F, F, F, T, T, F);
    Next(33, false, x33, x66);
    var x132 := Poly(F, T, F, F, T, T, T, F, T, F, F, F, T, F, T, F);
    Next(66, false, x66, x132);
    var x264 := Poly(F, T, F, T, T, F, F, T, F, T, F, F, F, T, T, F);
    Next(132, false, x132, x264);
    var x528 := Poly(F, T, T, T, T, F, F, F, T, F, T, T, F, F, T, T);
    Next(264, false, x264, x528);
    var x1057 := Poly(T, T, T, T, F, F, T, F, T, F, T, F, T, T, T, T);
    Next(528, true, x528, x1057);
  }

  lemma Pow4681()
    ensures Pow(4681) != UNIT
  {
    hide Pow;
    First();
    var x1 := Poly(F, F, F, F, F, F, F, F, F, F, F, F, F, F, T, F);
    var x2 := Poly(F, F, F, F, F, F, F, F, F, F, F, F, F, T, F, F);
    Next(1, false, x1, x2);
    var x4 := Poly(F, F, F, F, F, F, F, F, F, F, F, T, F, F, F, F);
    Next(2, false, x2, x4);
    var x9 := Poly(F, F, F, F, F, F, T, F, F, F, F, F, F, F, F, F);
    Next(4, true, x4, x9);
    var x18 := Poly(F, T, F, F, F, F, F, F, T, F, F, F, F, T, F, F);
    Next(9, false, x9, x18);
    var x36 := Poly(F, T, F, F, F, F, T, T, F, T, T, F, F, F, T, T);
    Next(18, false, x18, x36);
    var x73 := Poly(T, F, F, F, T, T, T, T, T, F, T, F, F, T, T, F);
    Next(36, true, x36, x73);
    var x146 := Poly(F, T, F, F, F, F, T, T, T, F, F, F, T, F, F, F);
    Next(73, false, x73, x146);
    var x292 := Poly(F, F, F, T, F, F, T, T, T, F, F, T, F, T, T, F);
    Next(146, false, x146, x292);
    var x585 := Poly(F, T, F, F, F, T, F, T, F, F, F, F, F, F, F, F);
    Next(292, true, x292, x585);
    var x1170 := Poly(F, F, F, F, F, F, F, T, F, T, T, F, F, F, T, T);
    Next(585, false, x585, x1170);
    var x2340 := Poly(F, F, F, F, F, T, F, F, F, F, T, F, F, T, F, F);
    Next(1170, false, x1170, x2340);
    var x4681 := Poly(F, F, T, F, T, T, F, F, F, T, F, F, F, F, T, F);
    Next(2340, true, x2340, x4681);
  }

  lemma Pow32767()
    ensures Pow(32767) == UNIT
  {
    hide Pow;
    First();
    var x1 := Poly(F, F, F, F, F, F, F, F, F, F, F, F, F, F, T, F);
    var x3 := Poly(F, F, F, F, F, F, F, F, F, F, F, F, T, F, F, F);
    Next(1, true, x1, x3);
    var x7 := Poly(F, F, F, F, F, F, F, F, T, F, F, F, F, F, F, F);
    Next(3, true, x3, x7);
    var x15 := Poly(T, F, F, F, F, F, F, F, F, F, F, F, F, F, F, F);
    Next(7, true, x7, x15);
    var x31 := Poly(F, F, F, T, T, F, T, T, T, F, F, T, T, F, F, F);
    Next(15, true, x15, x31);
    var x63 := Poly(T, T, F, T, F, T, F, F, F, F, T, F, F, F, F, F);
    Next(31, true, x31, x63);
    var x127 := Poly(F, T, F, T, F, T, T, T, F, T, T, T, T, T, T, F);
    Next(63, true, x63, x127);
    var x255 := Poly(T, T, F, F, T, T, T, T, F, F, F, F, F, T, F, F);
    Next(127, true, x127, x255);
    var x511 := Poly(F, F, F, F, T, F, F, T, T, T, T, T, T, T, T, F);
    Next(255, true, x255, x511);
    var x1023 := Poly(F, F, F, T, T, F, T, T, F, T, T, F, F, F, T, F);
    Next(511, true, x511, x1023);
    var x2047 := Poly(F, T, T, T, T, T, T, F, T, F, T, F, T, F, F, F);
    Next(1023, true, x1023, x2047);
    var x4095 := Poly(F, T, F, T, F, T, F, T, F, T, F, F, T, T, T, T);
    Next(2047, true, x2047, x4095);
    var x8191 := Poly(F, T, F, F, F, T, F, F, F, F, F, F, T, T, T, F);
    Next(4095, true, x4095, x8191);
    var x16383 := Poly(F, F, T, F, F, F, T, F, F, F, T, F, T, T, F, F);
    Next(8191, true, x8191, x16383);
    var x32767 := Poly(F, F, F, F, F, F, F, F, F, F, F, F, F, F, F, T);
    Next(16383, true, x16383, x32767);
  }

  // ----- the period -----

  const ORDER := 32767

  predicate Returns(n: nat) {
    XPow(n) == ONE
  }

  lemma ReturnsSum(m: nat, n: nat)
    requires Returns(m)
    ensures Returns(m + n) <==> Returns(n)
  {
    StepNSum(ONE, m, n);
  }

  lemma {:induction false} ReturnsMultiple(m: nat, k: nat, n: nat)
    requires Returns(m) && n == k * m
    ensures Returns(n)
    decreases k
  {
    if k > 0 {
      Product(k - 1, m);
      assert n == (k - 1) * m + m;
      ReturnsMultiple(m, k - 1, n - m);
      ReturnsSum(m, n - m);
    } else {
      assert Returns(0);
    }
  }

  lemma Product(k: nat, m: nat)
    ensures k * m >= 0
  {}

  ghost predicate Least(p: nat) {
    p > 0 && Returns(p) && forall q: nat :: 0 < q < p ==> !Returns(q)
  }

  lemma {:induction false} LeastExists(n: nat)
    requires n > 0 && Returns(n)
    ensures exists p: nat :: p <= n && Least(p)
  {
    if q: nat :| 0 < q < n && Returns(q) {
      LeastExists(q);
    } else {
      assert Least(n);
    }
  }

  /** Every return time is a multiple of the least. */
  lemma {:induction false} LeastDivides(p: nat, n: nat)
    requires Least(p) && Returns(n)
    ensures exists k: nat :: n == k * p
    decreases n
  {
    hide Returns;
    if n == 0 {
      assert n == 0 * p;
    } else if n >= p {
      ReturnsSum(p, n - p);
      LeastDivides(p, n - p);
      var k: nat :| n - p == k * p;
      assert n == (k + 1) * p;
    }
  }

  predicate Known(d: nat) {
    d == 1 || d == 7 || d == 31 || d == 151
  }

  predicate Sieved(d: nat)
    requires d > 0
  {
    ORDER % d != 0 || Known(d)
  }

  /** Ten numbers of which only the known ones divide the order. */
  predicate Block(lo: nat)
    requires lo > 0
  {
    && Sieved(lo) && Sieved(lo + 1) && Sieved(lo + 2) && Sieved(lo + 3) && Sieved(lo + 4)
    && Sieved(lo + 5) && Sieved(lo + 6) && Sieved(lo + 7) && Sieved(lo + 8) && Sieved(lo + 9)
  }

  lemma InBlock(lo: nat, d: nat)
    requires 0 < lo <= d < lo + 10 && Block(lo) && ORDER % d == 0
    ensures Known(d)
  {
    hide Known;
    assert Sieved(d);
  }

  lemma SieveLow(d: nat)
    requires 2 <= d < 92 && ORDER % d == 0
    ensures Known(d)
  {
    if d < 12 {
      InBlock(2, d);
    } else if d < 22 {
      InBlock(12, d);
    } else if d < 32 {
      InBlock(22, d);
    } else if d < 42 {
      InBlock(32, d);
    } else if d < 52 {
      InBlock(42, d);
    } else if d < 62 {
      InBlock(52, d);
    } else if d < 72 {
      InBlock(62, d);
    } else if d < 82 {
      InBlock(72, d);
    } else {
      InBlock(82, d);
    }
  }

  lemma SieveHigh(d: nat)
    requires 92 <= d < 182 && ORDER % d == 0
    ensures Known(d)
  {
    if d < 102 {
      InBlock(92, d);
    } else if d < 112 {
      InBlock(102, d);
    } else if d < 122 {
      InBlock(112, d);
    } else if d < 132 {
      InBlock(122, d);
    } else if d < 142 {
      InBlock(132, d);
    } else if d < 152 {
      InBlock(142, d);
    } else if d < 162 {
      InBlock(152, d);
    } else if d < 172 {
      InBlock(162, d);
    } else {
      InBlock(172, d);
    }
  }

  lemma SmallDivisors(d: nat)
    requires 0 < d < 182 && ORDER % d == 0
    ensures Known(d)
  {
    if 92 <= d {
      SieveHigh(d);
    } else if 2 <= d {
      SieveLow(d);
    }
  }

  lemma SmallMultiple(x: int, d: nat, r: nat)
    requires x * d == r && r < d
    ensures r == 0
  {}

  lemma FactorDivides(n: nat, d: nat, e: int)
    requires d > 0 && n == e * d
    ensures n % d == 0
  {
    var q := n / d;
    assert (e - q) * d == n % d;
    SmallMultiple(e - q, d, n % d);
  }

  lemma NotBothLarge(k: nat, p: nat)
    requires k >= 182 && p >= 182
    ensures k * p >= 182 * 182
  {}

  /** A proper divisor of the order divides one of the three maximal ones. */
  lemma ProperDivisor(k: nat, p: nat) returns (m: nat)
    requires k * p == ORDER && 0 < p < ORDER
    ensures m * p == 217 || m * p == 1057 || m * p == 4681
  {
    if p < 182 {
      FactorDivides(ORDER, p, k);
      SmallDivisors(p);
      m := if p == 1 then 217 else if p == 7 then 31 else 7;
    } else {
      if k >= 182 {
        NotBothLarge(k, p);
      }
      assert p * k == ORDER;
      FactorDivides(ORDER, k, p);
      SmallDivisors(k);
      m := 1;
    }
  }

  lemma Return32767()
    ensures Returns(ORDER)
  {
    hide XPow, Pow;
    ReturnsIff(ORDER);
    Pow32767();
  }

  lemma NoEarlyReturn(n: nat)
    requires n == 217 || n == 1057 || n == 4681
    ensures !Returns(n)
  {
    hide XPow, Pow;
    ReturnsIff(n);
    Pow217();
    Pow1057();
    Pow4681();
  }

  lemma OrderIsLeast(p: nat)
    requires p <= ORDER && Least(p)
    ensures p == ORDER
  {
    hide Returns;
    if p < ORDER {
      Return32767();
      LeastDivides(p, ORDER);
      var k: nat :| ORDER == k * p;
      var m := ProperDivisor(k, p);
      ReturnsMultiple(p, m, m * p);
      NoEarlyReturn(m * p);
    }
  }

  /** The orbit of 1 under the register returns exactly at the multiples of 32767. */
  lemma OrderOfX(n: nat)
    ensures Returns(n) <==> n % ORDER == 0
  {
    hide Returns;
    Return32767();
    if n % ORDER == 0 {
      ReturnsMultiple(ORDER, n / ORDER, n);
    } else if Returns(n) {
      LeastExists(ORDER);
      var p: nat :| p <= ORDER && Least(p);
      OrderIsLeast(p);
      LeastDivides(p, n);
    }
  }
}
