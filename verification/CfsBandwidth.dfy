/** The bandwidth object of a task group with its local pools. Ghost counters keep the ledger. */
module CfsBandwidths {
  import opened Wrap64
  import opened Sums
  import opened Seqs
  import opened Bandwidth

  /** A distribute pass in flight: what it started from, what it handed out, and what other
      cpus drew from and returned to the global pool meanwhile. `refilled`: the pool was
      refilled during the pass, dropping `dropped`. */
  datatype Pass =
    | NoPass
    | InFlight(snapshot: nat, granted: nat, drawn: nat, returned: nat, dropped: nat, refilled: bool)

  ghost predicate ListOk(list: seq<nat>, flags: seq<bool>) {
    && Within(list, |flags|) && Distinct(list)
    && forall i :: 0 <= i < |flags| ==> (flags[i] <==> i in list)
  }

  /** What a pass with this amount makes of the queues: it takes from none, those it wakes end at
      exactly 1 iff none it reaches held more, and local pools stay within a slice if the listed
      hold at most 1. */
  ghost predicate Outcome(list: seq<nat>, r: seq<int>, amount: nat, list': seq<nat>, r': seq<int>, slice: nat) {
    && |r'| == |r| && Within(list, |r|) && (forall i :: 0 <= i < |r| ==> r[i] <= r'[i])
    && ((forall x :: x in list && x !in list' ==> r'[x] == 1) <==> NoSurplusReached(list, r, amount))
    && (AllAtMost(r, slice) && ListedAtMost(list, r, 1) ==> AllAtMost(r', slice))
  }

  lemma DealOutcome(list: seq<nat>, r: seq<int>, amount: nat, list': seq<nat>, slice: nat)
    requires InRange(list, r) && Distinct(list) && Within(list, |r|) && slice >= 1
    requires forall x :: x in list' <==> x in list && x !in Deal(list, r, amount).woken
    ensures var d := Deal(list, r, amount);
      && Outcome(list, r, amount, list', d.r, slice) && d.left <= amount
      && Sum(d.r) == Sum(r) + amount - d.left && (list' == [] || d.left == 0)
  {
    hide Need, Deal, InRange, Reached, AllAtMost, ListedAtMost;
    var d := Deal(list, r, amount);
    DealFrame(list, r, amount);
    DealConserves(list, r, amount);
    DealWakes(list, r, amount);
    DealEndsAtOne(list, r, amount);
    if AllAtMost(r, slice) && ListedAtMost(list, r, 1) { DealAtMost(list, r, amount, slice); }
    assert (forall x :: x in list && x !in list' ==> d.r[x] == 1) <==> WokenAtOne(d) by {
      assert forall x :: x in list && x !in list' <==> x in d.woken;
      assert forall x :: x in list ==> x < |r|;
    }
    assert list' != [] ==> list'[0] in list';
  }

  lemma LaterIs(a: U64, b: U64)
    ensures Diff(Later(a, b), a) >= 0 && (Diff(b, a) > 0 ==> Later(a, b) == b) && (Diff(b, a) <= 0 ==> Later(a, b) == a)
  {
  }

  /** Exactly the queues of the list have this deadline now, where the others keep theirs. */
  ghost predicate Stamped(list: seq<nat>, before: seq<U64>, after: seq<U64>, deadline: U64) {
    && |after| == |before|
    && forall x :: 0 <= x < |before| ==> after[x] == if x in list then deadline else before[x]
  }

  /** A woken queue has the new deadline, and queues that were not listed keep theirs. */
  ghost predicate Renewed(list: seq<nat>, list': seq<nat>, before: seq<U64>, after: seq<U64>, deadline: U64) {
    && |after| == |before|
    && forall x :: 0 <= x < |before| ==>
         && (x in list && x !in list' ==> after[x] == deadline)
         && (x !in list ==> after[x] == before[x])
         && (after[x] == before[x] || after[x] == deadline)
  }

  lemma DealRenews(list: seq<nat>, r: seq<int>, amount: nat, list': seq<nat>, before: seq<U64>, after: seq<U64>,
                   deadline: U64)
    requires InRange(list, r) && Distinct(list) && Within(list, |r|) && |before| == |r|
    requires Deal(list, r, amount).reached <= |list|
    requires Stamped(list[..Deal(list, r, amount).reached], before, after, deadline)
    requires forall x :: x in list' <==> x in list && x !in Deal(list, r, amount).woken
    ensures Renewed(list, list', before, after, deadline)
  {
    hide Deal, Need, InRange, Distinct, Served;
    var d := Deal(list, r, amount);
    DealReached(list, r, amount);
    var s := list[..d.reached];
    forall x | 0 <= x < |before| && x in list && x !in list' ensures x in s {
      var k :| 0 <= k < |list| && list[k] == x;
      assert k < d.reached && s[k] == x;
    }
    assert forall k :: 0 <= k < |s| ==> s[k] == list[k];
  }

  lemma NoneRenewed(before: seq<U64>, deadline: U64)
    ensures Renewed([], [], before, before, deadline)
  {
  }

  lemma StampNone(before: seq<U64>, deadline: U64, list: seq<nat>)
    requires list == []
    ensures Stamped(list, before, before, deadline)
  {
  }

  lemma StampNext(list: seq<nat>, before: seq<U64>, after: seq<U64>, deadline: U64, k: nat)
    requires k < |list| && Stamped(list[..k], before, after, deadline) && list[k] < |after|
    ensures Stamped(list[..k + 1], before, after[list[k] := deadline], deadline)
  {
    assert list[..k + 1] == list[..k] + [list[k]];
  }

  /** The later of two deadlines. */
  function Later(a: U64, b: U64): U64 { if Diff(b, a) > 0 then b else a }

  lemma NothingListed(r: seq<int>, amount: nat, slice: nat)
    ensures Outcome([], r, amount, [], r, slice)
  {
  }

  lemma ListMeans(list: seq<nat>, flags: seq<bool>)
    requires ListOk(list, flags)
    ensures Within(list, |flags|) && Distinct(list)
    ensures forall i :: i in list ==> i < |flags| && flags[i]
  {
  }

  lemma ListDrop(list: seq<nat>, flags: seq<bool>, k: nat)
    requires ListOk(list, flags) && k < |list|
    ensures ListOk(list[..k] + list[k + 1..], flags[list[k] := false])
    ensures forall x :: x in list[..k] + list[k + 1..] <==> x in list && x != list[k]
  {
    Without(list, k);
    var t := list[..k] + list[k + 1..];
    forall i | 0 <= i < |t| ensures t[i] < |flags| { assert t[i] in t; }
  }

  class CfsBandwidth {
    const slice: nat
    const tick: nat
    var limited: bool
    var quota: nat
    var runtime: nat
    var expires: U64
    var idle: bool
    var throttledList: seq<nat>
    var throttled: seq<bool>
    var remaining: seq<int>
    var localExpires: seq<U64>

    ghost var issued: int
    ghost var consumed: int
    ghost var expired: int
    ghost var discarded: int
    ghost var overdrawn: int
    ghost var pass: Pass

    /** All runtime ever issued, and what passes handed out beyond it, is in the global pool,
        in a local pool, consumed, expired or discarded at a refill. */
    ghost predicate Ledger()
      reads this
    {
      issued + overdrawn + (if pass.InFlight? then pass.granted else 0)
      == runtime + Sum(remaining) + consumed + expired + discarded
    }

    ghost predicate PassOk()
      reads this
    {
      pass.InFlight? ==>
        && pass.granted <= pass.snapshot
        && (!pass.refilled ==> runtime == pass.snapshot - pass.drawn + pass.returned)
        && (pass.refilled ==> pass.snapshot <= pass.drawn + pass.dropped)
    }

    ghost predicate Valid()
      reads this
    {
      && |throttled| == |remaining| == |localExpires| && slice > 0
      && ListOk(throttledList, throttled) && Ledger() && PassOk()
    }

    /** No local pool holds more than one slice. */
    ghost predicate WithinSlice()
      reads this
    {
      AllAtMost(remaining, slice)
    }

    constructor (queues: nat, slice: nat, tick: nat)
      requires slice > 0
      ensures Valid() && WithinSlice() && pass == NoPass && this.slice == slice && throttledList == []
      ensures remaining == seq(queues, _ => 0) && throttled == seq(queues, _ => false)
    {
      this.slice, this.tick := slice, tick;
      limited, quota, runtime, expires, idle := false, 0, 0, 0, false;
      throttledList, throttled := [], seq(queues, _ => false);
      remaining, localExpires := seq(queues, _ => 0), seq(queues, _ => 0);
      issued, consumed, expired, discarded, overdrawn, pass := 0, 0, 0, 0, 0, NoPass;
      SumZero(seq(queues, _ => 0));
    }

    /** assign_cfs_rq_runtime: called when a pool has run dry. */
    method Assign(i: nat) returns (ok: bool)
      requires Valid() && i < |remaining| && remaining[i] <= 0
      modifies `runtime, `idle, `remaining, `localExpires, `issued, `pass
      ensures Valid() && ok == (remaining[i] > 0)
      ensures remaining == old(remaining)[i := remaining[i]] && remaining[i] <= slice
      ensures limited ==>
        (remaining[i] - old(remaining[i]) == old(runtime) - runtime == Min(old(runtime), slice - old(remaining[i])))
      ensures !limited ==> remaining[i] == slice && runtime == old(runtime)
      ensures issued == old(issued) + if limited then 0 else slice - old(remaining[i])
      ensures localExpires == old(localExpires)[i := Later(old(localExpires)[i], expires)]
      ensures Diff(localExpires[i], old(localExpires)[i]) >= 0
      ensures idle == (old(idle) && !(limited && old(runtime) > 0))
      ensures pass.InFlight? == old(pass.InFlight?)
    {
      hide ListOk, Later, Diff;
      LaterIs(localExpires[i], expires);
      var amount := Draw(slice - remaining[i]);
      SumUpdate(remaining, i, remaining[i] + amount);
      remaining := remaining[i := remaining[i] + amount];
      if Diff(expires, localExpires[i]) > 0 { localExpires := localExpires[i := expires]; }
      return remaining[i] > 0;
    }

    /** The section of assign_cfs_rq_runtime under the lock of the global pool. */
    method Draw(minAmount: nat) returns (amount: nat)
      requires PassOk()
      modifies `runtime, `idle, `issued, `pass
      ensures PassOk() && pass.InFlight? == old(pass.InFlight?)
      ensures pass.InFlight? ==> pass.granted == old(pass.granted)
      ensures amount == if limited then Min(old(runtime), minAmount) else minAmount
      ensures runtime == old(runtime) - (if limited then amount else 0)
      ensures issued == old(issued) + (if limited then 0 else amount)
      ensures idle == (old(idle) && !(limited && old(runtime) > 0))
    {
      amount := 0;
      if !limited {
        amount := minAmount;
        issued := issued + amount;
      } else if runtime > 0 {
        amount := Min(runtime, minAmount);
        runtime := runtime - amount;
        if pass.InFlight? { pass := pass.(drawn := pass.drawn + amount); }
        idle := false;
      }
    }

    /** Has the local deadline of queue i passed, with nothing owed? */
    predicate Lapsed(i: nat, now: U64)
      reads this
      requires i < |localExpires| && i < |remaining|
    {
      Diff(now, localExpires[i]) >= 0 && remaining[i] >= 0
    }

    /** expire_cfs_rq_runtime: once the local deadline has passed the pool is dropped if that is
        the global deadline as well; otherwise the local clock is fast, and it gets another tick. */
    method ExpireLocal(i: nat, now: U64)
      requires Valid() && i < |remaining|
      modifies `remaining, `localExpires, `expired
      ensures Valid()
      ensures old(Lapsed(i, now)) && old(localExpires)[i] == expires ==>
        remaining == old(remaining)[i := 0] && expired == old(expired) + old(remaining)[i]
        && localExpires == old(localExpires)
      ensures old(Lapsed(i, now)) && old(localExpires)[i] != expires ==>
        remaining == old(remaining) && expired == old(expired)
        && localExpires == old(localExpires)[i := (old(localExpires)[i] + tick) % TWO64]
      ensures !old(Lapsed(i, now)) ==>
        remaining == old(remaining) && expired == old(expired) && localExpires == old(localExpires)
      ensures WithinSlice() || !old(WithinSlice())
    {
      hide ListOk;
      if Diff(now, localExpires[i]) < 0 { return; }
      if remaining[i] < 0 { return; }
      if localExpires[i] != expires {
        localExpires := localExpires[i := (localExpires[i] + tick) % TWO64];
      } else {
        SumUpdate(remaining, i, 0);
        expired := expired + remaining[i];
        remaining := remaining[i := 0];
        assert remaining == old(remaining)[i := 0];
      }
    }

    /** __account_cfs_rq_runtime; the result tells whether the queue may go on. What it has left after
        docking is dropped if the global deadline has passed; if then nothing is left, it draws. */
    method Account(i: nat, delta: nat, now: U64) returns (ok: bool)
      requires Valid() && i < |remaining|
      modifies this
      ensures Valid() && consumed == old(consumed) + delta
      ensures |remaining| == |old(remaining)| && remaining == old(remaining)[i := remaining[i]]
      ensures ok == (remaining[i] > 0)
      ensures old(WithinSlice()) ==> WithinSlice()
      ensures throttledList == old(throttledList) && throttled == old(throttled)
      ensures overdrawn == old(overdrawn) && discarded == old(discarded)
      ensures limited == old(limited) && quota == old(quota) && expires == old(expires)
      ensures var docked := old(remaining)[i] - delta;
        var passed := docked >= 0 && Diff(now, old(localExpires)[i]) >= 0;
        var left := if passed && old(localExpires)[i] == expires then 0 else docked;
        && expired == old(expired) + docked - left
        && (left > 0 ==>
              remaining[i] == left && runtime == old(runtime) && issued == old(issued) && idle == old(idle))
        && (left <= 0 ==>
              var drawn := if limited then Min(old(runtime), slice - left) else slice - left;
              && remaining[i] == left + drawn
              && runtime == old(runtime) - (if limited then drawn else 0)
              && issued == old(issued) + (if limited then 0 else drawn)
              && idle == (old(idle) && !(limited && old(runtime) > 0)))
        && var deadline := if passed && old(localExpires)[i] != expires then (old(localExpires)[i] + tick) % TWO64
                           else old(localExpires)[i];
           localExpires == old(localExpires)[i := if left > 0 then deadline else Later(deadline, expires)]
      ensures pass.InFlight? == old(pass.InFlight?)
    {
      hide ListOk, Ledger, PassOk, Later;
      Dock(i, delta);
      ExpireLocal(i, now);
      if remaining[i] > 0 { return true; }
      ok := Assign(i);
    }

    method Dock(i: nat, delta: nat)
      requires Valid() && i < |remaining|
      modifies `remaining, `consumed
      ensures Valid() && consumed == old(consumed) + delta
      ensures remaining == old(remaining)[i := old(remaining)[i] - delta]
    {
      SumUpdate(remaining, i, remaining[i] - delta);
      remaining := remaining[i := remaining[i] - delta];
      consumed := consumed + delta;
    }

    /** check_enqueue_throttle, for a queue whose first entity was queued and which is not running;
        `enabled`: its group is limited. */
    method CheckEnqueueThrottle(i: nat, enabled: bool, now: U64)
      requires Valid() && i < |remaining|
      modifies this
      ensures Valid() && |remaining| == |old(remaining)| && consumed == old(consumed) && runtime <= old(runtime)
      ensures !enabled || old(throttled)[i] ==> remaining == old(remaining) && throttledList == old(throttledList)
      ensures enabled ==> (throttled[i] <==> old(throttled)[i] || remaining[i] <= 0)
      ensures throttledList == (if throttled[i] && !old(throttled)[i] then [i] else []) + old(throttledList)
    {
      hide ListOk, Ledger, PassOk, Later;
      if !enabled { return; }
      if throttled[i] { return; }
      var ok := Account(i, 0, now);
      if remaining[i] <= 0 { Throttle(i); }
    }

    /** __return_cfs_rq_runtime: keeps a reserve; slack of the current period goes back to the
        global pool, stale slack is lost. The slack timer is started if others wait for it. */
    method ReturnRuntime(i: nat) returns (startSlack: bool)
      requires Valid() && i < |remaining|
      modifies `runtime, `remaining, `expired, `pass
      ensures Valid() && remaining == old(remaining)[i := remaining[i]]
      ensures remaining[i] == if old(remaining)[i] > MIN_CFS_RQ_RUNTIME then MIN_CFS_RQ_RUNTIME else old(remaining)[i]
      ensures runtime == old(runtime) +
        (if limited && localExpires[i] == expires then old(remaining)[i] - remaining[i] else 0)
      ensures startSlack <==> runtime > old(runtime) && runtime > slice && throttledList != []
      ensures old(WithinSlice()) ==> WithinSlice()
    {
      hide ListOk;
      startSlack := false;
      var slack := remaining[i] - MIN_CFS_RQ_RUNTIME;
      if slack <= 0 { return; }
      SumUpdate(remaining, i, MIN_CFS_RQ_RUNTIME);
      if limited && localExpires[i] == expires {
        runtime := runtime + slack;
        if pass.InFlight? { pass := pass.(returned := pass.returned + slack); }
        startSlack := runtime > slice && throttledList != [];
      } else {
        expired := expired + slack;
      }
      remaining := remaining[i := remaining[i] - slack];
    }

    /** The limit of the group is set from outside. */
    method SetQuota(limited: bool, quota: nat)
      requires Valid()
      modifies `limited, `quota
      ensures Valid() && this.limited == limited && this.quota == quota
    {
      this.limited, this.quota := limited, quota;
    }

    /** __refill_cfs_bandwidth_runtime */
    method Refill(now: U64, period: U64)
      requires Valid()
      modifies `runtime, `expires, `issued, `discarded, `pass
      ensures expires == if limited then (now + period) % TWO64 else old(expires)
      ensures !limited ==> runtime == old(runtime)
      ensures Valid() && (limited ==> runtime == quota && issued == old(issued) + quota)
      ensures limited ==> discarded == old(discarded) + old(runtime)
      ensures pass.InFlight? == old(pass.InFlight?)
    {
      hide ListOk;
      if !limited { return; }
      issued, discarded := issued + quota, discarded + runtime;
      if pass.InFlight? { pass := pass.(dropped := pass.dropped + runtime, refilled := true); }
      runtime := quota;
      expires := (now + period) % TWO64;
    }

    /** To the head of the list, so that a pass already under way does not see the queue. */
    method Throttle(i: nat)
      requires Valid() && i < |remaining| && !throttled[i]
      modifies `throttledList, `throttled
      ensures Valid() && throttledList == [i] + old(throttledList) && throttled == old(throttled)[i := true]
    {
      throttled := throttled[i := true];
      throttledList := [i] + throttledList;
    }

    method Unthrottle(i: nat)
      requires Valid() && i < |remaining| && throttled[i]
      modifies `throttledList, `throttled
      ensures Valid() && throttled == old(throttled)[i := false]
      ensures forall x :: x in throttledList <==> x in old(throttledList) && x != i
      ensures i in old(throttledList) && var k := IndexOf(old(throttledList), i);
        throttledList == old(throttledList)[..k] + old(throttledList)[k + 1..]
    {
      var k := IndexOf(throttledList, i);
      ListDrop(throttledList, throttled, k);
      throttledList := throttledList[..k] + throttledList[k + 1..];
      throttled := throttled[i := false];
    }

    // ---- A distribute pass, step by step ----

    method BeginPass() returns (left: nat)
      requires Valid() && pass == NoPass
      modifies `pass
      ensures Valid() && left == runtime && pass == InFlight(runtime, 0, 0, 0, 0, false)
    {
      pass := InFlight(runtime, 0, 0, 0, 0, false);
      left := runtime;
    }

    /** One round of distribute_cfs_runtime under the lock of queue i. */
    method Grant(i: nat, left: nat, deadline: U64) returns (left': nat)
      requires Valid() && i < |remaining| && pass.InFlight? && pass.granted + left == pass.snapshot
      modifies `remaining, `localExpires, `throttledList, `throttled, `pass
      ensures Valid() && pass.InFlight? && pass.granted + left' == pass.snapshot == old(pass.snapshot)
      ensures pass == old(pass).(granted := pass.granted)
      ensures localExpires == if old(throttled)[i] then old(localExpires)[i := deadline] else old(localExpires)
      ensures !old(throttled)[i] ==> left' == left && remaining == old(remaining) && throttledList == old(throttledList)
      ensures old(throttled)[i] ==>
        && left' == left - Min(Need(old(remaining)[i]), left)
        && remaining == old(remaining)[i := old(remaining)[i] + left - left']
        && (forall x :: x in throttledList <==> x in old(throttledList) && !(x == i && remaining[i] > 0))
      ensures old(WithinSlice()) && old(-HALF < remaining[i] <= 1) ==> WithinSlice()
    {
      hide ListOk, Need;
      left' := left;
      if throttled[i] {
        var g := Min(Need(remaining[i]), left);
        SumUpdate(remaining, i, remaining[i] + g);
        if -HALF < remaining[i] <= 1 { NeedValue(remaining[i]); }
        left' := left - g;
        remaining := remaining[i := remaining[i] + g];
        localExpires := localExpires[i := deadline];
        pass := pass.(granted := pass.granted + g);
        if remaining[i] > 0 { Unthrottle(i); }
      }
    }

    /** The debit after a pass. Without a refill meanwhile, what was handed out beyond the pool
        is at most what others drew during the pass, and then the pool is left at exactly 0;
        a pass overtaken by a refill exceeds it by at most what was drawn or dropped. */
    method EndPass(given: nat, debit: bool)
      requires Valid() && pass.InFlight? && given == pass.granted && (!pass.refilled ==> debit)
      modifies `runtime, `overdrawn, `pass
      ensures Valid() && pass == NoPass
      ensures old(overdrawn) <= overdrawn <= old(overdrawn) + old(pass).drawn + old(pass).dropped
      ensures !old(pass).refilled ==> overdrawn - old(overdrawn) <= old(pass).drawn
      ensures debit && overdrawn > old(overdrawn) ==> runtime == 0
      ensures debit ==> runtime == old(runtime) - Min(old(pass).granted, old(runtime))
      ensures !debit ==> runtime == old(runtime)
    {
      hide ListOk;
      ghost var taken := if debit then Min(given, runtime) else 0;
      overdrawn := overdrawn + pass.granted - taken;
      if debit { runtime := runtime - Min(given, runtime); }
      pass := NoPass;
    }

    /** distribute_cfs_runtime without interleaving: exactly the pass `Deal`. */
    method Distribute(amount: nat, deadline: U64) returns (given: nat)
      requires Valid() && pass.InFlight? && pass.granted == 0 && amount == pass.snapshot
      modifies `remaining, `localExpires, `throttledList, `throttled, `pass
      ensures Valid() && pass == old(pass).(granted := given) && given <= amount
      ensures |remaining| == |old(remaining)| && Within(old(throttledList), |remaining|)
      ensures var d := Deal(old(throttledList), old(remaining), amount);
        && remaining == d.r && given == amount - d.left && |localExpires| == |old(localExpires)|
        && d.reached <= |old(throttledList)|
        && Stamped(old(throttledList)[..d.reached], old(localExpires), localExpires, deadline)
        && (forall x :: x in throttledList <==> x in old(throttledList) && x !in d.woken)
    {
      hide ListOk, Need, Ledger, PassOk, Deal, Stamped;
      var list, left, k := throttledList, amount, 0;
      ghost var r0, woken: set<nat>, stopped := remaining, {}, false;
      ListMeans(list, throttled);
      assert list[0..] == list;
      ghost var e0 := localExpires;
      assert Stamped(list[..0], e0, e0, deadline) by { StampNone(e0, deadline, list[..0]); }
      while k < |list|
        invariant k <= |list| && !stopped && Valid() && |remaining| == |r0| && Within(list, |remaining|)
        invariant pass.InFlight? && pass == old(pass).(granted := pass.granted) && pass.granted + left == amount
        invariant forall x :: x in throttledList <==> x in list && x !in woken
        invariant forall x :: x in woken ==> exists j :: 0 <= j < k && list[j] == x
        invariant Deal(list, r0, amount).r == Deal(list[k..], remaining, left).r
        invariant Deal(list, r0, amount).left == Deal(list[k..], remaining, left).left
        invariant Deal(list, r0, amount).reached == k + Deal(list[k..], remaining, left).reached
        invariant Stamped(list[..k], e0, localExpires, deadline) && |localExpires| == |remaining|
        invariant Deal(list, r0, amount).woken == woken + Deal(list[k..], remaining, left).woken
      {
        var i := list[k];
        ListMeans(throttledList, throttled);
        assert i in throttledList && throttled[i];
        assert list[k..][0] == i && list[k..][1..] == list[k + 1..];
        DealStep(list[k..], remaining, left);
        StampNext(list, e0, localExpires, deadline, k);
        left := Grant(i, left, deadline);
        ghost var now: set<nat> := if remaining[i] > 0 then {i} else {};
        woken := woken + now;
        k := k + 1;
        if left == 0 {
          stopped := true;
          break;
        }
      }
      if !stopped {
        assert list[k..] == [];
        DealEmpty(remaining, left);
      }
      given := amount - left;
    }

    /** One uninterrupted pass with its debit: all listed queues are awake or the pool is empty. */
    method RunPass(deadline: U64)
      requires Valid() && pass == NoPass && InRange(throttledList, remaining)
      modifies `runtime, `overdrawn, `remaining, `localExpires, `throttledList, `throttled, `pass
      ensures Valid() && pass == NoPass && overdrawn == old(overdrawn)
      ensures throttledList == [] || runtime == 0
      ensures Sum(remaining) + runtime == old(Sum(remaining) + runtime)
      ensures Outcome(old(throttledList), old(remaining), old(runtime), throttledList, remaining, slice)
      ensures Renewed(old(throttledList), throttledList, old(localExpires), localExpires, deadline)
    {
      hide ListOk, Deal, InRange, Outcome, Stamped, Renewed;
      var amount := BeginPass();
      ListMeans(throttledList, throttled);
      ghost var list, r0, e0 := throttledList, remaining, localExpires;
      var given := Distribute(amount, deadline);
      DealOutcome(list, r0, amount, throttledList, slice);
      DealRenews(list, r0, amount, throttledList, e0, localExpires, deadline);
      EndPass(given, true);
    }

    /** do_sched_cfs_period_timer without interleaving; true means the timer may stop. */
    method PeriodTimer(now: U64, period: U64) returns (deactivate: bool)
      requires Valid() && pass == NoPass && InRange(throttledList, remaining)
      modifies this
      ensures Valid() && pass == NoPass && overdrawn == old(overdrawn)
      ensures deactivate <==> !limited || (old(idle) && old(throttledList) == [])
      ensures !deactivate ==> issued == old(issued) + quota && discarded == old(discarded) + old(runtime)
      ensures !deactivate ==> throttledList == [] || runtime == 0
      ensures !deactivate ==> idle == (old(throttledList) == [])
      ensures deactivate ==>
        runtime == old(runtime) && remaining == old(remaining) && throttledList == old(throttledList)
      ensures limited == old(limited) && quota == old(quota)
      ensures consumed == old(consumed) && expired == old(expired)
      ensures !deactivate ==> Sum(remaining) + runtime == old(Sum(remaining)) + quota
      ensures !deactivate && quota > 0 ==>
        Outcome(old(throttledList), old(remaining), quota, throttledList, remaining, slice)
      ensures !deactivate && quota == 0 ==> remaining == old(remaining) && throttledList == old(throttledList)
      ensures expires == if deactivate then old(expires) else (now + period) % TWO64
      ensures deactivate ==> idle == old(idle) && localExpires == old(localExpires)
      ensures !deactivate && quota > 0 ==>
        Renewed(old(throttledList), throttledList, old(localExpires), localExpires, expires)
    {
      hide ListOk, InRange, Outcome, Renewed;
      if !limited { return true; }
      var waiting := throttledList != [];
      if idle && !waiting { return true; }
      Refill(now, period);
      if !waiting {
        NothingListed(remaining, quota, slice);
        NoneRenewed(localExpires, expires);
        idle := true;
        return false;
      }
      var deadline := expires;
      while waiting && runtime > 0
        invariant Valid() && pass == NoPass && overdrawn == old(overdrawn)
        invariant waiting == (throttledList != [])
        invariant issued == old(issued) + quota && discarded == old(discarded) + old(runtime)
        invariant limited && quota == old(quota) && consumed == old(consumed) && expired == old(expired)
        invariant Sum(remaining) + runtime == old(Sum(remaining)) + quota
        invariant (waiting && runtime > 0) || quota == 0 ==>
          runtime == quota && remaining == old(remaining) && throttledList == old(throttledList)
          && localExpires == old(localExpires)
        invariant !(waiting && runtime > 0) && quota > 0 ==>
          Outcome(old(throttledList), old(remaining), quota, throttledList, remaining, slice)
          && Renewed(old(throttledList), throttledList, old(localExpires), localExpires, expires)
        invariant expires == deadline == (now + period) % TWO64
        decreases if waiting && runtime > 0 then 1 else 0
      {
        RunPass(deadline);
        waiting := throttledList != [];
      }
      idle := false;
      return false;
    }

    /** do_sched_cfs_slack_timer without interleaving; `refreshing`: a refill is under way or near. */
    method SlackTimer(refreshing: bool)
      requires Valid() && pass == NoPass && InRange(throttledList, remaining)
      modifies `runtime, `overdrawn, `remaining, `localExpires, `throttledList, `throttled, `pass
      ensures Valid() && pass == NoPass && overdrawn == old(overdrawn)
      ensures Sum(remaining) + runtime == old(Sum(remaining) + runtime)
      ensures var go := !refreshing && limited && old(runtime) > slice;
        && (go ==> throttledList == [] || runtime == 0)
        && (go ==> Outcome(old(throttledList), old(remaining), old(runtime), throttledList, remaining, slice))
        && (go ==> Renewed(old(throttledList), throttledList, old(localExpires), localExpires, expires))
        && (!go ==> remaining == old(remaining) && runtime == old(runtime) && localExpires == old(localExpires)
                    && throttledList == old(throttledList))
    {
      hide ListOk, InRange, Outcome, Renewed;
      if refreshing { return; }
      if limited && runtime > slice { RunPass(expires); }
    }
  }

  /** A queue that is throttled and then topped up is listed holding more than 1, and a pass wakes
      it with more than 1. */
  method WokenAboveOne() returns (b: CfsBandwidth)
    ensures |b.remaining| == 1 && 0 !in b.throttledList && b.remaining[0] > 1
  {
    hide ListOk, Need, Reached, AllAtMost, ListedAtMost;
    b := new CfsBandwidth(1, 5, 1);
    b.SetQuota(true, 10);
    b.Refill(0, 100);
    b.Throttle(0);
    var ok := b.Account(0, 0, 0);
    assert b.remaining == [5] && b.throttledList == [0] && b.runtime == 5;
    Surplus(b.throttledList, b.remaining, b.runtime);
    b.RunPass(0);
  }

  lemma Surplus(list: seq<nat>, r: seq<int>, amount: nat)
    requires list == [0] && |r| == 1 && 1 < r[0] < HALF
    ensures InRange(list, r) && Within(list, |r|) && !NoSurplusReached(list, r, amount)
  {
    assert Reached(list, r, amount, 0);
  }
}
