/** The task clock of each queue, which stops while the queue or an ancestor is throttled. */
module ThrottleClocks {
  import opened GroupTree
  import opened Seqs

  /** How many of queue q and its ancestors are throttled. */
  function Nesting(sh: Shape, throttled: seq<bool>, q: nat): nat
    requires sh.WellFormed() && |throttled| == |sh.entity| && sh.IsQueue(q)
    decreases q
  {
    (if throttled[q] then 1 else 0) + if q == 0 then 0 else Nesting(sh, throttled, sh.Parent(q))
  }

  /** One more throttled queue g counts exactly for g and its descendants. */
  lemma {:induction false} NestingFlip(sh: Shape, throttled: seq<bool>, g: nat, q: nat)
    requires sh.WellFormed() && |throttled| == |sh.entity| && sh.IsQueue(q) && sh.IsQueue(g) && !throttled[g]
    ensures Nesting(sh, throttled[g := true], q)
      == Nesting(sh, throttled, q) + if sh.IsAncestorOrSelf(g, q) then 1 else 0
    decreases q
  {
    if q > 0 { NestingFlip(sh, throttled, g, sh.Parent(q)); }
    if q == g && q > 0 { AncestorsBefore(sh, g, sh.Parent(q)); }
  }

  lemma {:induction false} AncestorsBefore(sh: Shape, a: nat, q: nat)
    requires sh.WellFormed() && sh.IsQueue(q) && q < a
    ensures !sh.IsAncestorOrSelf(a, q)
    decreases q
  {
    if q > 0 { AncestorsBefore(sh, a, sh.Parent(q)); }
  }

  lemma {:induction false} AncestorIsQueue(sh: Shape, a: nat, q: nat)
    requires sh.WellFormed() && sh.IsQueue(q) && sh.IsAncestorOrSelf(a, q)
    ensures sh.IsQueue(a)
    decreases q
  {
    if a != q { AncestorIsQueue(sh, a, sh.Parent(q)); }
  }

  /** The count is positive exactly when some queue on the way to the root is throttled. */
  lemma {:induction false} NestingPositive(sh: Shape, throttled: seq<bool>, q: nat)
    requires sh.WellFormed() && |throttled| == |sh.entity| && sh.IsQueue(q)
    ensures Nesting(sh, throttled, q) > 0
      <==> exists a: nat :: a < |throttled| && throttled[a] && sh.IsAncestorOrSelf(a, q)
    decreases q
  {
    if throttled[q] {
      assert sh.IsAncestorOrSelf(q, q);
    } else if q > 0 {
      NestingPositive(sh, throttled, sh.Parent(q));
      assert forall a: nat :: a < |throttled| && throttled[a] ==>
        (sh.IsAncestorOrSelf(a, q) <==> sh.IsAncestorOrSelf(a, sh.Parent(q)));
    }
  }

  // ---- A new group ----

  /** The hierarchy with one more group below group p. */
  function Grown(sh: Shape, p: nat): (r: Shape)
    requires sh.WellFormed() && sh.IsQueue(p)
    ensures r.WellFormed() && |r.entity| == |sh.entity| + 1 && r.Parent(|sh.entity|) == p
    ensures forall q :: 0 < q < |sh.entity| ==> r.Parent(q) == sh.Parent(q)
  {
    Shape(sh.queue + [p], sh.owner + [|sh.entity|], sh.entity + [|sh.queue|])
  }

  lemma {:induction false} GrownNesting(sh: Shape, throttled: seq<bool>, p: nat, q: nat)
    requires sh.WellFormed() && |throttled| == |sh.entity| && sh.IsQueue(q) && sh.IsQueue(p)
    ensures Nesting(Grown(sh, p), throttled + [false], q) == Nesting(sh, throttled, q)
    decreases q
  {
    if q > 0 { GrownNesting(sh, throttled, p, sh.Parent(q)); }
  }

  lemma NewNesting(sh: Shape, throttled: seq<bool>, p: nat)
    requires sh.WellFormed() && |throttled| == |sh.entity| && sh.IsQueue(p)
    ensures Nesting(Grown(sh, p), throttled + [false], |sh.entity|) == Nesting(sh, throttled, p)
  {
    GrownNesting(sh, throttled, p, p);
  }

  // ---- The clocks ----

  /** An order in which a walk visits group g and every descendant once. */
  ghost predicate WalkOrder(sh: Shape, g: nat, order: seq<nat>)
    requires sh.WellFormed()
  {
    Distinct(order) && forall q: nat :: q in order <==> sh.IsQueue(q) && sh.IsAncestorOrSelf(g, q)
  }

  lemma WalkWithin(sh: Shape, g: nat, order: seq<nat>)
    requires sh.WellFormed() && WalkOrder(sh, g, order)
    ensures Within(order, |sh.entity|)
  {
    forall i | 0 <= i < |order| ensures order[i] < |sh.entity| { assert order[i] in order; }
  }

  /** How long each queue has been stopped, after d more units. */
  ghost function Stopped(sh: Shape, throttled: seq<bool>, stopped: seq<nat>, d: nat): (r: seq<nat>)
    requires sh.WellFormed() && |throttled| == |sh.entity| == |stopped|
    ensures |r| == |stopped|
  {
    seq(|stopped|, q requires 0 <= q < |stopped| => stopped[q] + if Nesting(sh, throttled, q) > 0 then d else 0)
  }

  class ThrottleClock {
    var sh: Shape
    var clock: nat
    var throttled: seq<bool>
    var throttleCount: seq<int>
    var throttledClockTask: seq<int>
    var throttledClockTaskTime: seq<int>
    /** Time since each queue's creation during which it or an ancestor was throttled. */
    ghost var stopped: seq<nat>

    ghost predicate Shaped()
      reads this
    {
      && sh.WellFormed() && |throttled| == |throttleCount| == |throttledClockTask| == |throttledClockTaskTime|
      && |stopped| == |throttled| == |sh.entity|
    }

    function ClockTask(q: nat): int
      reads this
      requires q < |throttleCount| && q < |throttledClockTask| && q < |throttledClockTaskTime|
    {
      if throttleCount[q] != 0 then throttledClockTask[q] - throttledClockTaskTime[q]
      else clock - throttledClockTaskTime[q]
    }

    /** The count is the nesting, and a queue's clock is behind by its stopped time. */
    ghost predicate QueueOk(q: nat)
      reads this
      requires Shaped() && q < |sh.entity|
    {
      throttleCount[q] == Nesting(sh, throttled, q) && ClockTask(q) == clock - stopped[q]
    }

    ghost predicate Valid()
      reads this
    {
      Shaped() && forall q: nat :: q < |sh.entity| ==> QueueOk(q)
    }

    /** A root group only. */
    constructor (now: nat)
      ensures Valid() && sh.entity == [0] && throttled == [false] && clock == now
    {
      sh := Shape([], [], [0]);
      clock := now;
      throttled, throttleCount, throttledClockTask, throttledClockTaskTime := [false], [0], [0], [0];
      stopped := [0];
    }

    /** cfs_rq_clock_task */
    method CfsRqClockTask(q: nat) returns (t: int)
      requires Valid() && sh.IsQueue(q)
      ensures t == clock - stopped[q]
    {
      assert QueueOk(q);
      if throttleCount[q] != 0 { return throttledClockTask[q] - throttledClockTaskTime[q]; }
      return clock - throttledClockTaskTime[q];
    }

    /** The clock of the run queue moves on: stopped queues stand still, the others follow. */
    method UpdateRqClock(d: nat)
      requires Valid()
      modifies `clock, `stopped
      ensures Valid() && clock == old(clock) + d && stopped == Stopped(sh, throttled, old(stopped), d)
      ensures forall q: nat :: q < |sh.entity| ==>
        ClockTask(q) == old(ClockTask(q)) + if Nesting(sh, throttled, q) > 0 then 0 else d
    {
      hide Nesting;
      assert forall q: nat :: q < |sh.entity| ==> QueueOk(q);
      stopped := Stopped(sh, throttled, stopped, d);
      clock := clock + d;
      forall q: nat | q < |sh.entity|
        ensures QueueOk(q)
        ensures ClockTask(q) == old(ClockTask(q)) + if Nesting(sh, throttled, q) > 0 then 0 else d
      {
        assert old(QueueOk(q));
      }
    }

    /** tg_throttle_down */
    method TgThrottleDown(q: nat)
      requires Shaped() && q < |sh.entity| && throttleCount[q] >= 0
      modifies `throttleCount, `throttledClockTask
      ensures Shaped() && throttleCount == old(throttleCount)[q := old(throttleCount[q]) + 1]
      ensures forall c: nat :: c < |sh.entity| ==> ClockTask(c) == old(ClockTask(c))
    {
      if throttleCount[q] == 0 { throttledClockTask := throttledClockTask[q := clock]; }
      throttleCount := throttleCount[q := throttleCount[q] + 1];
    }

    /** tg_unthrottle_up */
    method TgUnthrottleUp(q: nat)
      requires Shaped() && q < |sh.entity| && throttleCount[q] > 0
      modifies `throttleCount, `throttledClockTaskTime
      ensures Shaped() && throttleCount == old(throttleCount)[q := old(throttleCount[q]) - 1]
      ensures forall c: nat :: c < |sh.entity| ==> ClockTask(c) == old(ClockTask(c))
    {
      throttleCount := throttleCount[q := throttleCount[q] - 1];
      if throttleCount[q] == 0 {
        var lost := clock - throttledClockTask[q];
        throttledClockTaskTime := throttledClockTaskTime[q := throttledClockTaskTime[q] + lost];
      }
    }

    /** walk_tg_tree_from(tg_throttle_down) */
    method StopAll(order: seq<nat>)
      requires Shaped() && Distinct(order) && Within(order, |sh.entity|)
      requires forall q: nat :: q < |sh.entity| ==> throttleCount[q] >= 0
      modifies `throttleCount, `throttledClockTask
      ensures Shaped()
      ensures forall q: nat :: q < |sh.entity| ==>
        throttleCount[q] == old(throttleCount[q]) + if q in order then 1 else 0
      ensures forall q: nat :: q < |sh.entity| ==> ClockTask(q) == old(ClockTask(q))
    {
      for k := 0 to |order|
        invariant Shaped()
        invariant forall q: nat :: q < |sh.entity| ==>
          throttleCount[q] == old(throttleCount[q]) + if q in order[..k] then 1 else 0
        invariant forall q: nat :: q < |sh.entity| ==> ClockTask(q) == old(ClockTask(q))
      {
        assert order[..k + 1] == order[..k] + [order[k]];
        TgThrottleDown(order[k]);
      }
      assert order[..|order|] == order;
    }

    /** walk_tg_tree_from(tg_unthrottle_up) */
    method RestartAll(order: seq<nat>)
      requires Shaped() && Distinct(order) && Within(order, |sh.entity|)
      requires forall q: nat :: q in order ==> throttleCount[q] > 0
      modifies `throttleCount, `throttledClockTaskTime
      ensures Shaped()
      ensures forall q: nat :: q < |sh.entity| ==>
        throttleCount[q] == old(throttleCount[q]) - if q in order then 1 else 0
      ensures forall q: nat :: q < |sh.entity| ==> ClockTask(q) == old(ClockTask(q))
    {
      for k := 0 to |order|
        invariant Shaped()
        invariant forall q: nat :: q < |sh.entity| ==>
          throttleCount[q] == old(throttleCount[q]) - if q in order[..k] then 1 else 0
        invariant forall q: nat :: q < |sh.entity| ==> ClockTask(q) == old(ClockTask(q))
      {
        assert order[..k + 1] == order[..k] + [order[k]] && order[k] in order;
        TgUnthrottleUp(order[k]);
      }
      assert order[..|order|] == order;
    }

    /** The part of throttle_cfs_rq that stops time below g: no clock jumps. */
    method ThrottleCfsRq(g: nat, order: seq<nat>)
      requires Valid() && sh.IsQueue(g) && !throttled[g] && WalkOrder(sh, g, order)
      modifies `throttled, `throttleCount, `throttledClockTask
      ensures Valid() && throttled == old(throttled)[g := true]
      ensures forall q: nat :: q < |sh.entity| ==> ClockTask(q) == old(ClockTask(q))
    {
      hide Nesting;
      assert forall q: nat :: q < |sh.entity| ==> QueueOk(q);
      WalkWithin(sh, g, order);
      forall q: nat | q < |sh.entity| ensures throttleCount[q] >= 0 { assert QueueOk(q); }
      StopAll(order);
      throttled := throttled[g := true];
      forall q: nat | q < |sh.entity| ensures QueueOk(q) {
        assert old(QueueOk(q));
        NestingFlip(sh, old(throttled), g, q);
      }
    }

    /** The part of unthrottle_cfs_rq that restarts time below g, d units after the last
        update of the clock; whatever was stopped stands still over those units too. */
    method UnthrottleCfsRq(g: nat, d: nat, order: seq<nat>)
      requires Valid() && sh.IsQueue(g) && throttled[g] && WalkOrder(sh, g, order)
      modifies `clock, `stopped, `throttled, `throttleCount, `throttledClockTaskTime
      ensures Valid() && throttled == old(throttled)[g := false] && clock == old(clock) + d
      ensures stopped == Stopped(sh, old(throttled), old(stopped), d)
      ensures forall q: nat :: q < |sh.entity| ==>
        ClockTask(q) == old(ClockTask(q)) + if Nesting(sh, old(throttled), q) > 0 then 0 else d
    {
      hide Nesting;
      UpdateRqClock(d);
      WalkWithin(sh, g, order);
      label Updated:
      forall q: nat | q < |sh.entity|
        ensures throttleCount[q] == Nesting(sh, throttled[g := false], q) + if q in order then 1 else 0
      {
        assert QueueOk(q) && throttled[g := false][g := true] == throttled;
        NestingFlip(sh, throttled[g := false], g, q);
      }
      throttled := throttled[g := false];
      RestartAll(order);
      forall q: nat | q < |sh.entity| ensures QueueOk(q) {
        assert old@Updated(QueueOk(q));
      }
    }

    /** sync_throttle for a group just created below p: it starts level with the clock of the
        run queue, stopped if p is. */
    method SyncThrottle(p: nat)
      requires Valid() && sh.IsQueue(p)
      modifies this
      ensures Valid() && sh == Grown(old(sh), p) && clock == old(clock)
      ensures throttled == old(throttled) + [false] && stopped == old(stopped) + [0]
      ensures ClockTask(|old(sh).entity|) == clock
      ensures forall q: nat :: q < |old(sh).entity| ==> ClockTask(q) == old(ClockTask(q))
    {
      hide Nesting;
      ghost var before, n := sh, |sh.entity|;
      assert QueueOk(p);
      sh := Grown(sh, p);
      throttled := throttled + [false];
      throttleCount := throttleCount + [throttleCount[p]];
      throttledClockTask := throttledClockTask + [clock];
      throttledClockTaskTime := throttledClockTaskTime + [0];
      stopped := stopped + [0];
      forall q: nat | q < n ensures QueueOk(q) {
        assert old(QueueOk(q));
        GrownNesting(before, old(throttled), p, q);
      }
      NewNesting(before, old(throttled), p);
    }
  }
}
