/** Sums over a sequence of a natural-valued measure. */
module Tally {
  function Sum<T>(ts: seq<T>, f: T -> nat): nat {
    if |ts| == 0 then 0 else Sum(ts[..|ts| - 1], f) + f(ts[|ts| - 1])
  }

  lemma SumAppend<T>(ts: seq<T>, t: T, f: T -> nat)
    ensures Sum(ts + [t], f) == Sum(ts, f) + f(t)
  {
    assert (ts + [t])[..|ts|] == ts;
  }

  lemma {:induction false} SumUpdate<T>(ts: seq<T>, i: nat, t: T, f: T -> nat)
    requires i < |ts|
    ensures Sum(ts[i := t], f) + f(ts[i]) == Sum(ts, f) + f(t)
  {
    var n := |ts| - 1;
    if i == n {
      assert ts[i := t][..n] == ts[..n];
    } else {
      SumUpdate(ts[..n], i, t, f);
      assert ts[i := t][..n] == ts[..n][i := t];
    }
  }

  lemma {:induction false} SumSame<T>(ts: seq<T>, us: seq<T>, f: T -> nat)
    requires |ts| == |us| && forall i: nat :: i < |ts| ==> f(ts[i]) == f(us[i])
    ensures Sum(ts, f) == Sum(us, f)
  {
    if |ts| > 0 { SumSame(ts[..|ts| - 1], us[..|us| - 1], f); }
  }

  lemma {:induction false} SumAtMost<T>(ts: seq<T>, f: T -> nat, g: T -> nat, c: nat)
    requires forall i: nat :: i < |ts| ==> f(ts[i]) <= c * g(ts[i])
    ensures Sum(ts, f) <= c * Sum(ts, g)
  {
    if |ts| > 0 {
      var n := |ts| - 1;
      SumAtMost(ts[..n], f, g, c);
      assert c * Sum(ts, g) == c * Sum(ts[..n], g) + c * g(ts[n]);
    }
  }

  /** The measure vanishes everywhere exactly when its sum does. */
  lemma {:induction false} SumZero<T>(ts: seq<T>, f: T -> nat)
    ensures Sum(ts, f) == 0 <==> forall i: nat :: i < |ts| ==> f(ts[i]) == 0
  {
    if |ts| > 0 {
      var n := |ts| - 1;
      SumZero(ts[..n], f);
      forall i: nat | i < |ts| && Sum(ts, f) == 0 ensures f(ts[i]) == 0 {
        if i < n { assert ts[i] == ts[..n][i]; }
      }
    }
  }
}
