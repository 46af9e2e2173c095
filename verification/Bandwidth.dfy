/** CFS bandwidth control of one task group: a global pool refilled every period, a local pool
    per run queue, and the distribution of runtime to throttled queues. Each method is one
    section under a lock, so interleavings are sequences of calls. */
module Bandwidth {
  import opened Wrap64
  import opened Sums
  import opened Seqs

  const MIN_CFS_RQ_RUNTIME: nat := 1_000_000

  function Min(a: nat, b: nat): nat { if a <= b then a else b }

  // ---- One pass over the throttled list, run without interruption ----

  /** -runtime_remaining + 1 as an unsigned number: what lifts a queue to 1, unless it has more. */
  function Need(r: int): nat { (1 - r) % TWO64 }

  lemma NeedValue(r: int)
    requires -HALF < r < HALF
    ensures Need(r) == if r <= 1 then 1 - r else TWO64 + 1 - r
  {
  }

  /** The pools after a pass, what is left, whom it woke, and how many of the list it reached. */
  datatype Dealt = Dealt(r: seq<int>, left: nat, woken: set<nat>, reached: nat)

  function Deal(list: seq<nat>, r: seq<int>, left: nat): (d: Dealt)
    requires forall k :: 0 <= k < |list| ==> list[k] < |r|
    ensures |d.r| == |r|
  {
    if list == [] then Dealt(r, left, {}, 0)
    else
      var i := list[0];
      var g := Min(Need(r[i]), left);
      var r1 := r[i := r[i] + g];
      var woken := if r1[i] > 0 then {i} else {};
      if left == g then Dealt(r1, 0, woken, 1)
      else
        var d := Deal(list[1..], r1, left - g);
        Dealt(d.r, d.left, woken + d.woken, 1 + d.reached)
  }

  lemma DealEmpty(r: seq<int>, left: nat)
    ensures Deal([], r, left) == Dealt(r, left, {}, 0)
  {
  }

  lemma DealStep(list: seq<nat>, r: seq<int>, left: nat)
    requires list != [] && forall k :: 0 <= k < |list| ==> list[k] < |r|
    ensures var i := list[0];
      var g := Min(Need(r[i]), left);
      var r1 := r[i := r[i] + g];
      var woken := if r1[i] > 0 then {i} else {};
      && (left == g ==> Deal(list, r, left) == Dealt(r1, 0, woken, 1))
      && (left != g ==>
            var d := Deal(list[1..], r1, left - g);
            Deal(list, r, left) == Dealt(d.r, d.left, woken + d.woken, 1 + d.reached))
  {
  }

  predicate InRange(list: seq<nat>, r: seq<int>) {
    forall k :: 0 <= k < |list| ==> list[k] < |r| && -HALF < r[list[k]] < HALF
  }

  /** Runtime needed to bring the first k queues of the list to 1. */
  function NeedOfFirst(list: seq<nat>, r: seq<int>, k: nat): (n: nat)
    requires k <= |list| && forall j :: 0 <= j < |list| ==> list[j] < |r|
  {
    if k == 0 then 0
    else NeedOfFirst(list, r, k - 1) + (if r[list[k - 1]] <= 1 then 1 - r[list[k - 1]] else 0)
  }

  lemma {:induction false} NeedShift(list: seq<nat>, r: seq<int>, k: nat)
    requires 0 < k <= |list| && forall j :: 0 <= j < |list| ==> list[j] < |r|
    ensures NeedOfFirst(list, r, k) ==
      (if r[list[0]] <= 1 then 1 - r[list[0]] else 0) + NeedOfFirst(list[1..], r, k - 1)
  {
    if k > 1 { NeedShift(list, r, k - 1); }
  }

  lemma {:induction false} NeedFrame(list: seq<nat>, r: seq<int>, r': seq<int>, k: nat)
    requires k <= |list| && |r| == |r'| && forall j :: 0 <= j < |list| ==> list[j] < |r| && r'[list[j]] == r[list[j]]
    ensures NeedOfFirst(list, r', k) == NeedOfFirst(list, r, k)
  {
    if k > 0 { NeedFrame(list, r, r', k - 1); }
  }

  /** A pass never takes from a queue and touches listed queues only. */
  lemma {:induction false} DealFrame(list: seq<nat>, r: seq<int>, left: nat)
    requires forall k :: 0 <= k < |list| ==> list[k] < |r|
    ensures var d := Deal(list, r, left);
      forall i :: 0 <= i < |r| ==> d.r[i] >= r[i] && (i !in list ==> d.r[i] == r[i])
  {
    hide Need;
    if list != [] {
      var i := list[0];
      var g := Min(Need(r[i]), left);
      if left != g { DealFrame(list[1..], r[i := r[i] + g], left - g); }
    }
  }

  /** The pass hands out exactly what it takes from the amount it was given. */
  lemma {:induction false} DealConserves(list: seq<nat>, r: seq<int>, left: nat)
    requires forall k :: 0 <= k < |list| ==> list[k] < |r|
    ensures var d := Deal(list, r, left); d.left <= left && Sum(d.r) == Sum(r) + left - d.left
  {
    hide Need;
    if list != [] {
      var i := list[0];
      var g := Min(Need(r[i]), left);
      SumUpdate(r, i, r[i] + g);
      if left != g { DealConserves(list[1..], r[i := r[i] + g], left - g); }
    }
  }

  predicate AllAtMost(r: seq<int>, m: nat) { forall i :: 0 <= i < |r| ==> r[i] <= m }

  predicate ListedAtMost(list: seq<nat>, r: seq<int>, m: nat) {
    forall k :: 0 <= k < |list| ==> list[k] < |r| && r[list[k]] <= m
  }

  /** A pass over queues that hold at most 1 leaves each of them at most 1. */
  lemma {:induction false} DealAtMost(list: seq<nat>, r: seq<int>, left: nat, m: nat)
    requires InRange(list, r) && ListedAtMost(list, r, 1) && m >= 1 && AllAtMost(r, m)
    ensures AllAtMost(Deal(list, r, left).r, m)
  {
    hide Need;
    if list != [] {
      var i := list[0];
      NeedValue(r[i]);
      var g := Min(Need(r[i]), left);
      if left != g { DealAtMost(list[1..], r[i := r[i] + g], left - g, m); }
    }
  }

  lemma RestInRange(list: seq<nat>, r: seq<int>, x: int)
    requires list != [] && InRange(list, r) && Distinct(list)
    ensures InRange(list[1..], r[list[0] := x]) && Distinct(list[1..]) && list[0] !in list[1..]
    ensures list[0] < |r| && -HALF < r[list[0]] < HALF && (forall y :: y in list <==> y == list[0] || y in list[1..])
    ensures forall k :: 0 <= k < |list[1..]| ==> list[1..][k] < |r|
  {
    assert list == [list[0]] + list[1..];
  }

  /** It wakes exactly listed queues that it leaves above 0, and stops only when all are awake
      or nothing is left. */
  lemma {:induction false} DealWakes(list: seq<nat>, r: seq<int>, left: nat)
    requires InRange(list, r) && Distinct(list)
    ensures var d := Deal(list, r, left);
      && (forall i :: i in d.woken ==> i in list && d.r[i] > 0)
      && (d.left == 0 || forall i :: i in list ==> i in d.woken)
  {
    hide Need, InRange, Distinct;
    if list != [] {
      RestInRange(list, r, 0);
      var i, rest := list[0], list[1..];
      var g := Min(Need(r[i]), left);
      var r1 := r[i := r[i] + g];
      RestInRange(list, r, r[i] + g);
      NeedValue(r[i]);
      if left != g {
        DealFrame(rest, r1, left - g);
        DealWakes(rest, r1, left - g);
      }
    }
  }

  /** All queues reached but the last get all they need. */
  predicate Served(list: seq<nat>, r: seq<int>, d: Dealt) {
    forall k :: 0 <= k < d.reached - 1 && k < |list| && list[k] < |r| && list[k] < |d.r| ==>
      d.r[list[k]] == r[list[k]] + Need(r[list[k]])
  }

  /** Those not reached get nothing and are not woken. */
  predicate NotReached(list: seq<nat>, r: seq<int>, d: Dealt) {
    forall k :: d.reached <= k < |list| && list[k] < |r| && list[k] < |d.r| ==>
      d.r[list[k]] == r[list[k]] && list[k] !in d.woken
  }

  lemma ServedShift(list: seq<nat>, r: seq<int>, d1: Dealt, d: Dealt)
    requires list != [] && Within(list, |r|) && list[0] !in list[1..] && |d1.r| == |r| && d1.r == d.r
    requires d.reached == 1 + d1.reached && d.r[list[0]] == r[list[0]] + Need(r[list[0]])
    requires Served(list[1..], r[list[0] := d.r[list[0]]], d1)
    ensures Served(list, r, d)
  {
    hide Need;
    var rest := list[1..];
    forall k | 0 <= k < d.reached - 1 && k < |list| ensures d.r[list[k]] == r[list[k]] + Need(r[list[k]]) {
      if k > 0 { assert rest[k - 1] == list[k] && rest[k - 1] in rest; }
    }
  }

  lemma NotReachedShift(list: seq<nat>, r: seq<int>, x: int, d1: Dealt, d: Dealt)
    requires list != [] && Within(list, |r|) && list[0] !in list[1..] && |d1.r| == |r| && d1.r == d.r
    requires d.reached == 1 + d1.reached && d.woken <= d1.woken + {list[0]}
    requires NotReached(list[1..], r[list[0] := x], d1)
    ensures NotReached(list, r, d)
  {
    var rest := list[1..];
    forall k | d.reached <= k < |list| ensures d.r[list[k]] == r[list[k]] && list[k] !in d.woken {
      assert rest[k - 1] == list[k] && rest[k - 1] in rest;
    }
  }

  lemma OnlyFirst(list: seq<nat>, r: seq<int>, d: Dealt)
    requires list != [] && Within(list, |r|) && list[0] !in list[1..] && d.reached == 1 && d.woken <= {list[0]}
    requires d.r == r[list[0] := if list[0] < |d.r| then d.r[list[0]] else 0]
    ensures Served(list, r, d) && NotReached(list, r, d)
  {
    forall k | 1 <= k < |list| ensures list[k] != list[0] { assert list[1..][k - 1] in list[1..]; }
  }

  /** A pass gives the queues it reaches all they need, but perhaps the last; the others nothing;
      and it reaches the whole list unless it runs dry. */
  lemma {:induction false} DealReached(list: seq<nat>, r: seq<int>, left: nat)
    requires InRange(list, r) && Distinct(list) && Within(list, |r|)
    ensures var d := Deal(list, r, left);
      Served(list, r, d) && NotReached(list, r, d) && d.reached <= |list| && (d.reached < |list| ==> d.left == 0)
  {
    hide Need, InRange, Distinct, Served, NotReached;
    if list == [] {
      NothingReached(r, left);
    } else {
      RestInRange(list, r, 0);
      var i, rest := list[0], list[1..];
      var g := Min(Need(r[i]), left);
      var r1 := r[i := r[i] + g];
      RestInRange(list, r, r[i] + g);
      var d := Deal(list, r, left);
      if left == g {
        OnlyFirst(list, r, d);
      } else {
        DealFrame(rest, r1, left - g);
        DealReached(rest, r1, left - g);
        ServedShift(list, r, Deal(rest, r1, left - g), d);
        NotReachedShift(list, r, r[i] + g, Deal(rest, r1, left - g), d);
      }
    }
  }

  lemma NothingReached(r: seq<int>, left: nat)
    ensures Served([], r, Deal([], r, left)) && NotReached([], r, Deal([], r, left))
  {
  }

  /** Does the pass get as far as queue k of the list? */
  predicate Reached(list: seq<nat>, r: seq<int>, left: nat, k: nat)
    requires k < |list| && forall j :: 0 <= j < |list| ==> list[j] < |r|
  {
    k == 0 || NeedOfFirst(list, r, k) < left
  }

  predicate WokenAtOne(d: Dealt) {
    forall i :: i in d.woken && i < |d.r| ==> d.r[i] == 1
  }

  predicate NoSurplusReached(list: seq<nat>, r: seq<int>, left: nat)
    requires forall j :: 0 <= j < |list| ==> list[j] < |r|
  {
    forall k :: 0 <= k < |list| && Reached(list, r, left, k) ==> r[list[k]] <= 1
  }

  /** After an exact grant to the first queue the rest of the pass reaches the same queues. */
  lemma ReachShift(list: seq<nat>, r: seq<int>, left: nat, g: nat)
    requires list != [] && InRange(list, r) && Distinct(list) && r[list[0]] <= 1 && g == 1 - r[list[0]] < left
    ensures NoSurplusReached(list, r, left) <==> NoSurplusReached(list[1..], r[list[0] := 1], left - g)
  {
    var rest, r1 := list[1..], r[list[0] := 1];
    assert forall j :: 0 <= j < |rest| ==> rest[j] == list[j + 1] != list[0];
    forall k | 0 < k < |list|
      ensures Reached(list, r, left, k) <==> Reached(rest, r1, left - g, k - 1)
    {
      NeedShift(list, r, k);
      NeedFrame(rest, r, r1, k - 1);
    }
    if NoSurplusReached(list, r, left) {
      forall k | 0 <= k < |rest| && Reached(rest, r1, left - g, k) ensures r1[rest[k]] <= 1 {
        assert Reached(list, r, left, k + 1);
      }
    }
    if NoSurplusReached(rest, r1, left - g) {
      forall k | 0 <= k < |list| && Reached(list, r, left, k) ensures r[list[k]] <= 1 {
        if k > 0 { assert Reached(rest, r1, left - g, k - 1) && rest[k - 1] == list[k]; }
      }
    }
  }

  lemma NoReach(list: seq<nat>, r: seq<int>, left: nat)
    requires list != [] && InRange(list, r) && r[list[0]] <= 1 && left <= 1 - r[list[0]]
    ensures NoSurplusReached(list, r, left)
  {
    forall k | 0 < k < |list|
      ensures !Reached(list, r, left, k)
    {
      NeedShift(list, r, k);
    }
  }

  /** Every queue the pass wakes ends at exactly 1, if and only if no queue it reaches had more
      than 1 to begin with: such a queue swallows all that is left. */
  lemma {:induction false} DealEndsAtOne(list: seq<nat>, r: seq<int>, left: nat)
    requires InRange(list, r) && Distinct(list)
    ensures WokenAtOne(Deal(list, r, left)) <==> NoSurplusReached(list, r, left)
  {
    hide Need, InRange, Distinct;
    if list != [] {
      RestInRange(list, r, 0);
      var i, rest := list[0], list[1..];
      var g := Min(Need(r[i]), left);
      var r1 := r[i := r[i] + g];
      RestInRange(list, r, r[i] + g);
      NeedValue(r[i]);
      var d := Deal(list, r, left);
      if left != g { DealFrame(rest, r1, left - g); }
      assert d.r[i] == r[i] + g;
      if r[i] > 1 {
        assert Reached(list, r, left, 0) && !NoSurplusReached(list, r, left);
        assert i in d.woken && d.r[i] > 1;
      } else if left != g {
        DealEndsAtOne(rest, r1, left - g);
        ReachShift(list, r, left, g);
        assert d == Dealt(d.r, d.left, {i} + Deal(rest, r1, left - g).woken, d.reached);
      } else {
        NoReach(list, r, left);
      }
    }
  }
}
