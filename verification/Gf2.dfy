/** Polynomials over GF(2) as bit strings, highest coefficient first. */
module Gf2 {
  function Zeros(n: nat): (r: seq<bool>)
    ensures |r| == n
  {
    seq(n, i => false)
  }

  function Xor(a: seq<bool>, b: seq<bool>): (r: seq<bool>)
    requires |a| == |b|
    ensures |r| == |a|
  {
    seq(|a|, i requires 0 <= i < |a| => a[i] != b[i])
  }

  function Scale(c: bool, g: seq<bool>): (r: seq<bool>)
    ensures |r| == |g|
  {
    if c then g else Zeros(|g|)
  }

  /** The product: (q*x + c) * g == (q*g)*x + c*g. */
  function Mul(q: seq<bool>, g: seq<bool>): (r: seq<bool>)
    requires |g| > 0
    ensures |r| == |q| + |g| - 1
  {
    if q == [] then Zeros(|g| - 1)
    else Xor(Mul(q[..|q| - 1], g) + [false], Zeros(|q| - 1) + Scale(q[|q| - 1], g))
  }

  /** The number of nonzero coefficients. */
  function Weight(e: seq<bool>): nat {
    if e == [] then 0 else Weight(e[..|e| - 1]) + (if e[|e| - 1] then 1 else 0)
  }

  lemma XorIsZero(u: seq<bool>, v: seq<bool>)
    requires |u| == |v|
    ensures Xor(u, v) == Zeros(|u|) <==> u == v
  {
    if Xor(u, v) == Zeros(|u|) {
      forall i | 0 <= i < |u| ensures u[i] == v[i] {
        assert Xor(u, v)[i] == Zeros(|u|)[i];
      }
    }
  }

  lemma XorZeros(u: seq<bool>)
    ensures Xor(u, Zeros(|u|)) == u
    ensures Xor(Zeros(|u|), u) == u
  {}

  /** One more quotient bit leaves the leading coefficients of a product alone. */
  lemma MulPrefix(q: seq<bool>, g: seq<bool>, k: nat)
    requires |g| > 0 && k < |q|
    ensures k < |q| - 1 ==> Mul(q, g)[k] == Mul(q[..|q| - 1], g)[k]
    ensures k == |q| - 1 ==> Mul(q, g)[k] == ((Mul(q[..k], g) + [false])[k] != (q[k] && g[0]))
  {
    var n := |q| - 1;
    MulAt(q, g, k);
    assert k < n ==> !(Zeros(n) + Scale(q[n], g))[k];
    assert k == n ==> (Zeros(n) + Scale(q[n], g))[k] == (q[n] && g[0]);
  }

  lemma MulAt(q: seq<bool>, g: seq<bool>, k: nat)
    requires |g| > 0 && |q| > 0 && k < |q| + |g| - 1
    ensures Mul(q, g)[k] ==
      ((Mul(q[..|q| - 1], g) + [false])[k] != (Zeros(|q| - 1) + Scale(q[|q| - 1], g))[k])
  {}

  /** A monic divisor leaves the quotient readable off the leading coefficients. */
  lemma {:induction false} MulInjective(q1: seq<bool>, q2: seq<bool>, g: seq<bool>)
    requires |g| > 0 && g[0]
    requires |q1| == |q2|
    requires forall k :: 0 <= k < |q1| ==> Mul(q1, g)[k] == Mul(q2, g)[k]
    ensures q1 == q2
  {
    hide Mul;
    if q1 != [] {
      var n := |q1| - 1;
      forall k | 0 <= k < n ensures Mul(q1[..n], g)[k] == Mul(q2[..n], g)[k] {
        MulPrefix(q1, g, k);
        MulPrefix(q2, g, k);
      }
      MulInjective(q1[..n], q2[..n], g);
      MulPrefix(q1, g, n);
      MulPrefix(q2, g, n);
      assert q1 == q1[..n] + [q1[n]] && q2 == q2[..n] + [q2[n]];
    }
  }
}
