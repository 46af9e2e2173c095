/** Finite sums over sequences of integers. Every global count, weight, load or
    fault total of the model is one of these sums, and every step changes few terms. */
module Sums {

  function Sum(s: seq<int>): int {
    if s == [] then 0 else s[0] + Sum(s[1..])
  }

  lemma {:induction false} SumUpdate(s: seq<int>, i: nat, v: int)
    requires i < |s|
    ensures Sum(s[i := v]) == Sum(s) - s[i] + v
  {
    if i == 0 {
      assert s[0 := v][1..] == s[1..];
    } else {
      assert s[i := v][1..] == s[1..][i - 1 := v];
      SumUpdate(s[1..], i - 1, v);
    }
  }

  lemma {:induction false} SumPointwise(s: seq<int>, t: seq<int>, u: seq<int>)
    requires |s| == |t| == |u|
    requires forall i :: 0 <= i < |s| ==> u[i] == s[i] + t[i]
    ensures Sum(u) == Sum(s) + Sum(t)
  {
    if s != [] { SumPointwise(s[1..], t[1..], u[1..]); }
  }

  lemma {:induction false} SumMonotone(s: seq<int>, t: seq<int>)
    requires |s| == |t|
    requires forall i :: 0 <= i < |s| ==> s[i] <= t[i]
    ensures Sum(s) <= Sum(t)
  {
    if s != [] { SumMonotone(s[1..], t[1..]); }
  }

  lemma {:induction false} SumZero(s: seq<int>)
    requires forall i :: 0 <= i < |s| ==> s[i] == 0
    ensures Sum(s) == 0
  {
    if s != [] { SumZero(s[1..]); }
  }

  /** A sum of non-negative terms is at least each of its terms. */
  lemma {:induction false} SumAtLeast(s: seq<int>, i: nat)
    requires i < |s|
    requires forall j :: 0 <= j < |s| ==> 0 <= s[j]
    ensures s[i] <= Sum(s)
  {
    if i == 0 {
      SumMonotone(seq(|s[1..]|, _ => 0), s[1..]);
      SumZero(seq(|s[1..]|, _ => 0));
    } else {
      SumAtLeast(s[1..], i - 1);
    }
  }
}
