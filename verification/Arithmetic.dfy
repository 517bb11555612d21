/** Small facts about numbers and set sizes shared by the bounds. */
module Arithmetic {
  function Max(a: nat, b: nat): (m: nat)
    ensures a <= m && b <= m && (m == a || m == b)
  {
    if a < b then b else a
  }

  function Min(a: nat, b: nat): (m: nat)
    ensures m <= a && m <= b && (m == a || m == b)
  {
    if a < b then a else b
  }

  lemma MulLess(c: nat, x: nat, y: nat)
    requires x <= y
    ensures c * x <= c * y
  {
  }

  lemma MulCancel(c: nat, x: nat, y: nat)
    requires c * x < c * y
    ensures x < y
  {
    if y <= x { MulLess(c, y, x); }
  }

  lemma FloorIs(p: nat, q: nat, u: nat)
    requires q > 0 && u == p / q
    ensures u * q <= p < (u + 1) * q
  {
    assert p == q * (p / q) + p % q;
    assert u * q == q * u && (u + 1) * q == q * u + q;
  }

  lemma SubsetSize<T(!new)>(a: set<T>, b: set<T>)
    requires a <= b
    ensures |a| <= |b| && (|a| == |b| ==> a == b)
  {
    assert b == a + (b - a);
  }
}
