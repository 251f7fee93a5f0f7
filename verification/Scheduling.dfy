/** Bounding the steps of a system of threads by a sum over the threads. */
module Scheduling {

  function Sum<T>(ts: seq<T>, f: T -> int): int {
    if ts == [] then 0 else Sum(ts[..|ts| - 1], f) + f(ts[|ts| - 1])
  }

  lemma {:induction false} SumAfterUpdate<T>(ts: seq<T>, f: T -> int, t: nat, x: T)
    requires t < |ts|
    ensures Sum(ts[t := x], f) == Sum(ts, f) - f(ts[t]) + f(x)
  {
    var n := |ts| - 1;
    if t == n {
      assert ts[t := x][..n] == ts[..n];
    } else {
      assert ts[t := x][..n] == ts[..n][t := x];
      SumAfterUpdate(ts[..n], f, t, x);
    }
  }

  lemma {:induction false} SumNonNegative<T>(ts: seq<T>, f: T -> int)
    requires forall t | 0 <= t < |ts| :: f(ts[t]) >= 0
    ensures Sum(ts, f) >= 0
  {
    if ts != [] {
      SumNonNegative(ts[..|ts| - 1], f);
    }
  }
}
