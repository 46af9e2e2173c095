/** The run queue object of one cpu: the walks of enqueue_task_fair, dequeue_task_fair,
    throttle_cfs_rq and unthrottle_cfs_rq, group reweighting, and the buddies. */
module RunQueues {
  import opened Sums
  import opened GroupTree
  import opened RunQueueTree
  import opened EntityPaths

  class RunQueue {
    const sh: Shape
    var on: seq<bool>
    var weight: seq<nat>
    var throttled: seq<bool>
    var running: seq<int>
    var load: seq<int>
    var hRunning: seq<int>
    var rqRunning: int
    var last: seq<int>
    var next: seq<int>
    var skip: seq<int>
    /** Per queue the current entity and the entities in its tree. */
    var curr: seq<int>
    var tree: seq<set<nat>>

    ghost function View(): Counts
      reads this
    {
      Counts(on, weight, throttled, running, load, hRunning, rqRunning)
    }

    /** `last` and `next` of a queue are queued entities of that queue, and its tree holds exactly
        its queued entities but the current one. */
    ghost predicate Attached()
      reads this
    {
      BuddiesOn(sh, on, last) && BuddiesOn(sh, on, next) && |skip| == |sh.entity| && TreesHold(sh, on, curr, tree)
    }

    ghost predicate Valid()
      reads this
    {
      Balanced(sh, View()) && Attached()
    }

    constructor (shape: Shape, weights: seq<nat>)
      requires shape.WellFormed() && |weights| == |shape.queue|
      requires forall e :: 0 <= e < |weights| ==> weights[e] > 0
      ensures Valid() && sh == shape && weight == weights
      ensures forall e :: sh.IsEntity(e) ==> !on[e]
    {
      sh := shape;
      on := seq(|shape.queue|, _ => false);
      weight := weights;
      throttled := seq(|shape.entity|, _ => false);
      running := seq(|shape.entity|, _ => 0);
      load := seq(|shape.entity|, _ => 0);
      hRunning := seq(|shape.entity|, _ => 0);
      rqRunning := 0;
      last := seq(|shape.entity|, _ => NoEntity);
      next := seq(|shape.entity|, _ => NoEntity);
      skip := seq(|shape.entity|, _ => NoEntity);
      curr := seq(|shape.entity|, _ => NoEntity);
      tree := seq(|shape.entity|, _ => {});
      new;
      var c := View();
      forall q | 0 <= q < |sh.entity|
        ensures Sum(RunningTerms(sh, c, q)) == 0 == Sum(LoadTerms(sh, c, q)) == Sum(HTerms(sh, c, q))
      {
        SumZero(RunningTerms(sh, c, q));
        SumZero(LoadTerms(sh, c, q));
        SumZero(HTerms(sh, c, q));
      }
    }

    // ---- Buddies ----

    method ClearBuddiesLast(e: nat)
      requires Attached() && sh.IsEntity(e)
      modifies `last
      ensures Attached() && WalkedAll(sh, Buddies(sh, old(last)), e, old(last), last, Cleared)
    {
      var se: int := e;
      ghost var hits := Buddies(sh, last);
      WalkedStart(sh, hits, e, last, Cleared);
      while se != NoEntity
        invariant Attached() && Walked(sh, hits, e, se, old(last), last, Cleared)
        invariant forall q :: 0 <= q < |last| && q <= Mark(sh, se) ==> last[q] == old(last)[q]
        decreases if se == NoEntity then -1 else sh.queue[se]
      {
        hide Walked, Hit;
        var q := sh.queue[se];
        if last[q] != se { break; }
        WalkedNext(sh, hits, e, se, old(last), last, Cleared);
        last := last[q := NoEntity];
        se := ParentEntity(sh, q);
      }
      WalkedDone(sh, hits, e, se, old(last), last, Cleared);
    }

    method ClearBuddiesNext(e: nat)
      requires Attached() && sh.IsEntity(e)
      modifies `next
      ensures Attached() && WalkedAll(sh, Buddies(sh, old(next)), e, old(next), next, Cleared)
    {
      var se: int := e;
      ghost var hits := Buddies(sh, next);
      WalkedStart(sh, hits, e, next, Cleared);
      while se != NoEntity
        invariant Attached() && Walked(sh, hits, e, se, old(next), next, Cleared)
        invariant forall q :: 0 <= q < |next| && q <= Mark(sh, se) ==> next[q] == old(next)[q]
        decreases if se == NoEntity then -1 else sh.queue[se]
      {
        hide Walked, Hit;
        var q := sh.queue[se];
        if next[q] != se { break; }
        WalkedNext(sh, hits, e, se, old(next), next, Cleared);
        next := next[q := NoEntity];
        se := ParentEntity(sh, q);
      }
      WalkedDone(sh, hits, e, se, old(next), next, Cleared);
    }

    method ClearBuddiesSkip(e: nat)
      requires Attached() && sh.IsEntity(e)
      modifies `skip
      ensures Attached() && WalkedAll(sh, Buddies(sh, old(skip)), e, old(skip), skip, Cleared)
    {
      var se: int := e;
      ghost var hits := Buddies(sh, skip);
      WalkedStart(sh, hits, e, skip, Cleared);
      while se != NoEntity
        invariant Attached() && Walked(sh, hits, e, se, old(skip), skip, Cleared)
        invariant forall q :: 0 <= q < |skip| && q <= Mark(sh, se) ==> skip[q] == old(skip)[q]
        decreases if se == NoEntity then -1 else sh.queue[se]
      {
        hide Walked, Hit;
        var q := sh.queue[se];
        if skip[q] != se { break; }
        WalkedNext(sh, hits, e, se, old(skip), skip, Cleared);
        skip := skip[q := NoEntity];
        se := ParentEntity(sh, q);
      }
      WalkedDone(sh, hits, e, se, old(skip), skip, Cleared);
    }

    /** No buddy of e's queue is e afterwards; above it, walks go on as long as the group entity is the
        buddy of its queue as well. */
    method ClearBuddies(e: nat)
      requires Attached() && sh.IsEntity(e)
      modifies `last, `next, `skip
      ensures Attached()
      ensures last[sh.queue[e]] != e && next[sh.queue[e]] != e && skip[sh.queue[e]] != e
      ensures WalkedAll(sh, Buddies(sh, old(last)), e, old(last), last, Cleared)
      ensures WalkedAll(sh, Buddies(sh, old(next)), e, old(next), next, Cleared)
      ensures WalkedAll(sh, Buddies(sh, old(skip)), e, old(skip), skip, Cleared)
    {
      var q := sh.queue[e];
      if last[q] == e { ClearBuddiesLast(e); }
      if next[q] == e { ClearBuddiesNext(e); }
      if skip[q] == e { ClearBuddiesSkip(e); }
    }

    /** e and the queued group entities above it become `last`; stops at the first that is off.
        `idle`: e is a task of the idle policy, which is never a buddy. */
    method SetLastBuddy(e: nat, idle: bool)
      requires Attached() && sh.IsEntity(e)
      modifies `last
      ensures Attached()
      ensures if sh.owner[e] == 0 && idle then last == old(last) else WalkedAll(sh, on, e, old(last), last, Itself)
    {
      if sh.owner[e] == 0 && idle { return; }
      var se: int := e;
      WalkedStart(sh, on, e, last, Itself);
      while se != NoEntity
        invariant Attached() && Walked(sh, on, e, se, old(last), last, Itself)
        decreases if se == NoEntity then -1 else sh.queue[se]
      {
        hide Walked, Hit;
        if !on[se] { break; }
        WalkedNext(sh, on, e, se, old(last), last, Itself);
        last := last[sh.queue[se] := se];
        se := ParentEntity(sh, sh.queue[se]);
      }
      WalkedDone(sh, on, e, se, old(last), last, Itself);
    }

    method SetNextBuddy(e: nat, idle: bool)
      requires Attached() && sh.IsEntity(e)
      modifies `next
      ensures Attached()
      ensures if sh.owner[e] == 0 && idle then next == old(next) else WalkedAll(sh, on, e, old(next), next, Itself)
    {
      if sh.owner[e] == 0 && idle { return; }
      var se: int := e;
      WalkedStart(sh, on, e, next, Itself);
      while se != NoEntity
        invariant Attached() && Walked(sh, on, e, se, old(next), next, Itself)
        decreases if se == NoEntity then -1 else sh.queue[se]
      {
        hide Walked, Hit;
        if !on[se] { break; }
        WalkedNext(sh, on, e, se, old(next), next, Itself);
        next := next[sh.queue[se] := se];
        se := ParentEntity(sh, sh.queue[se]);
      }
      WalkedDone(sh, on, e, se, old(next), next, Itself);
    }

    // ---- One entity ----

    /** account_entity_dequeue and account_entity_enqueue around the new weight. */
    method ReweightEntity(e: nat, w: nat)
      requires Fits(sh, View()) && LocalExact(sh, View()) && sh.IsEntity(e) && w > 0
      modifies `weight, `running, `load
      ensures weight == old(weight)[e := w] && running == old(running)
      ensures Fits(sh, View()) && LocalExact(sh, View())
      ensures forall q :: sh.IsQueue(q) ==> HTerms(sh, View(), q) == old(HTerms(sh, View(), q))
      ensures !on[e] ==> load == old(load)
    {
      hide LocalExact, HBehind, RunningTerms, LoadTerms, Sum;
      var q := sh.queue[e];
      ghost var c0 := View();
      if on[e] {
        running, load := running[q := running[q] - 1], load[q := load[q] - weight[e]];
      }
      ghost var c1 := if c0.on[e] then TurnOff(sh, c0, e) else c0;
      if c0.on[e] { SwitchLocal(sh, c0, c1, e); }
      weight := weight[e := w];
      ghost var c2 := c1.(weight := c1.weight[e := w]);
      ReweighOff(sh, c1, e, w);
      if on[e] {
        running, load := running[q := running[q] + 1], load[q := load[q] + weight[e]];
        SwitchLocal(sh, c2, TurnOn(sh, c2, e), e);
        assert View() == TurnOn(sh, c2, e);
      }
      forall x | 0 <= x < |sh.entity|
        ensures HTerms(sh, View(), x) == HTerms(sh, c0, x)
      {
        assert TaskUnits(sh, View()) == TaskUnits(sh, c0) && QueueUnits(sh, View()) == QueueUnits(sh, c0);
      }
    }

    /** The walks reweigh the group entities they pass; `shares` holds the computed shares. */
    method UpdateCfsShares(e: nat, shares: seq<nat>)
      requires Fits(sh, View()) && LocalExact(sh, View()) && sh.IsEntity(e)
      requires |shares| == |sh.queue| && forall i :: 0 <= i < |shares| ==> shares[i] > 0
      modifies `weight, `running, `load
      ensures weight == if sh.owner[e] > 0 then old(weight)[e := shares[e]] else old(weight)
      ensures running == old(running)
      ensures Fits(sh, View()) && LocalExact(sh, View())
      ensures forall q :: sh.IsQueue(q) ==> HTerms(sh, View(), q) == old(HTerms(sh, View(), q))
      ensures !on[e] ==> load == old(load)
    {
      if sh.owner[e] == 0 { return; }
      ReweightEntity(e, shares[e]);
    }

    method DequeueEntity(e: nat)
      requires Fits(sh, View()) && Attached() && sh.IsEntity(e) && on[e]
      modifies this
      ensures View() == TurnOff(sh, old(View()), e) && Attached()
    {
      hide WalkedAll, BuddiesOn, TreesHold;
      ClearBuddies(e);
      var q := sh.queue[e];
      BuddiesStay(sh, on, on[e := false], last);
      BuddiesStay(sh, on, on[e := false], next);
      SwitchTree(sh, on, curr, tree, e, false);
      assert tree[q := tree[q]] == tree;
      if curr[q] != e { tree := tree[q := tree[q] - {e}]; }
      on := on[e := false];
      running := running[q := running[q] - 1];
      load := load[q := load[q] - weight[e]];
    }

    /** The body of the loop in throttle_cfs_rq. */
    method TakeOffLevel(e: nat, delta: int, dequeue: bool)
      requires Fits(sh, View()) && Attached() && sh.IsEntity(e) && on[e]
      modifies this
      ensures Attached()
      ensures View() == AddH(if dequeue then TurnOff(sh, old(View()), e) else old(View()), sh.queue[e], -delta)
    {
      var q := sh.queue[e];
      if dequeue { DequeueEntity(e); }
      hRunning := hRunning[q := hRunning[q] - delta];
    }

    /** Throttles queue a. If its entity is off only the flag changes; this is the call
        nested in EnqueueEntity, made while the counts are still behind. */
    method ThrottleCfsRq(a: nat)
      requires Fits(sh, View()) && Attached() && 0 < a < |sh.entity| && !throttled[a]
      requires on[sh.entity[a]] ==> Valid()
      modifies this
      ensures Fits(sh, View()) && Attached()
      ensures throttled == old(throttled)[a := true] && weight == old(weight)
      ensures !old(on[sh.entity[a]]) ==> View() == old(View()).(throttled := throttled)
      ensures old(on[sh.entity[a]]) ==> Balanced(sh, View()) && SameTasksBut(sh, old(View()), View(), NoEntity)
    {
      hide HBehind, LocalExact, EntitiesFollowExcept;
      var delta, dequeue := hRunning[a], true;
      var se: int := sh.entity[a];
      ghost var c0 := View();
      if on[se] { ThrottleStart(sh, c0, a); }
      while se != NoEntity
        invariant !c0.on[sh.entity[a]] ==> se == sh.entity[a] && View() == c0
        invariant c0.on[sh.entity[a]] ==> ThrottleWalk(sh, View(), se, delta, a, dequeue)
        invariant se == sh.entity[a] ==> View() == c0 && dequeue
        invariant |on| == |sh.queue| && |weight| == |sh.queue| && SameTasksBut(sh, c0, View(), NoEntity)
        invariant throttled == c0.throttled && weight == c0.weight && rqRunning == c0.rqRunning
        invariant Attached()
        decreases if se == NoEntity then -1 else sh.queue[se]
      {
        if !on[se] { break; }
        ThrottleLevel(sh, View(), se, delta, a, dequeue);
        var q := sh.queue[se];
        TakeOffLevel(se, delta, dequeue);
        if load[q] != 0 { dequeue := false; }
        se := ParentEntity(sh, q);
      }
      if c0.on[sh.entity[a]] { ThrottleDone(sh, View(), a); }
      if se == NoEntity { rqRunning := rqRunning - delta; }
      throttled := throttled[a := true];
    }

    /** account_entity_enqueue, and into the tree unless it is the current entity. */
    method PutOn(e: nat)
      requires Fits(sh, View()) && Attached() && sh.IsEntity(e) && !on[e]
      modifies `on, `running, `load, `tree
      ensures Attached() && View() == TurnOn(sh, old(View()), e)
    {
      hide BuddiesOn, TreesHold;
      var q := sh.queue[e];
      BuddiesStay(sh, on, on[e := true], last);
      BuddiesStay(sh, on, on[e := true], next);
      SwitchTree(sh, on, curr, tree, e, true);
      assert tree[q := tree[q]] == tree;
      if curr[q] != e { tree := tree[q := tree[q] + {e}]; }
      on := on[e := true];
      running := running[q := running[q] + 1];
      load := load[q := load[q] + weight[e]];
    }

    /** set_next_entity: the current entity of its queue is not kept in the tree. */
    method SetNextEntity(e: nat)
      requires Attached() && sh.IsEntity(e) && curr[sh.queue[e]] == NoEntity
      modifies `curr, `tree
      ensures Attached() && curr == old(curr)[sh.queue[e] := e]
    {
      var q := sh.queue[e];
      if on[e] { tree := tree[q := tree[q] - {e}]; }
      curr := curr[q := e];
    }

    /** put_prev_entity: a queued previous entity goes back. */
    method PutPrevEntity(e: nat)
      requires Attached() && sh.IsEntity(e) && curr[sh.queue[e]] == e
      modifies `curr, `tree
      ensures Attached() && curr == old(curr)[sh.queue[e] := NoEntity]
    {
      var q := sh.queue[e];
      if on[e] { tree := tree[q := tree[q] + {e}]; }
      curr := curr[q := NoEntity];
    }

    /** check_enqueue_throttle runs when the queue stops being empty; `exhausted` holds the
        queues it finds limited, not running and without runtime left. */
    method EnqueueEntity(e: nat, shares: seq<nat>, exhausted: set<nat>)
      requires Fits(sh, View()) && LocalExact(sh, View()) && Attached() && sh.IsEntity(e) && !on[e]
      requires |shares| == |sh.queue| && (forall i :: 0 <= i < |shares| ==> shares[i] > 0) && 0 !in exhausted
      requires sh.queue[e] > 0 && running[sh.queue[e]] == 0 ==> !on[sh.entity[sh.queue[e]]]
      modifies this
      ensures Fits(sh, View()) && Attached()
      ensures View() == EnqueueEntityCounts(sh, old(View()), e, shares, exhausted)
    {
      hide HBehind, LocalExact, EntitiesFollowExcept, BuddiesOn, TreesHold;
      var q := sh.queue[e];
      ghost var c0 := View();
      UpdateCfsShares(e, shares);
      PutOn(e);
      ghost var c1 := View();
      assert c1 == TurnOn(sh, c0.(weight := weight), e);
      if running[q] == 1 {
        if q in exhausted && !throttled[q] {
          assert q > 0 && sh.entity[q] != e;
          ThrottleCfsRq(q);
        }
      }
    }

    method AdjustLevel(e: nat, d: int, shares: seq<nat>, ghost c0: Counts, ghost t: int, ghost exhausted: set<nat>)
      returns (stop: bool)
      requires CountWalk(sh, c0, View(), e, d, t, exhausted) && Attached() && sh.IsEntity(e)
      requires |shares| == |sh.queue| && (forall i :: 0 <= i < |shares| ==> shares[i] > 0)
      modifies `weight, `running, `load, `hRunning
      ensures Attached() && running == old(running) && stop == throttled[sh.queue[e]]
      ensures weight == if !stop && sh.owner[e] > 0 then old(weight)[e := shares[e]] else old(weight)
      ensures stop ==> Progress(sh, c0, View(), t, exhausted) && Balanced(sh, View())
      ensures !stop ==> CountWalk(sh, c0, View(), ParentEntity(sh, sh.queue[e]), d, t, exhausted)
    {
      hide HBehind, LocalExact, EntitiesFollowExcept, Above, Progress, SameTasksBut;
      var q := sh.queue[e];
      ghost var c := View();
      CatchUp(sh, c, q, d);
      hRunning := hRunning[q := hRunning[q] + d];
      stop := throttled[q];
      if !stop { UpdateCfsShares(e, shares); }
      CountLevel(sh, c0, c, View(), e, d, t, exhausted);
    }

    /** The second loop of the walks: adjust h_nr_running upwards until a throttled queue. */
    method AdjustAbove(e: int, d: int, shares: seq<nat>, ghost c0: Counts, ghost t: int, ghost exhausted: set<nat>)
      returns (pastRoot: bool)
      requires CountWalk(sh, c0, View(), e, d, t, exhausted) && Attached()
      requires |shares| == |sh.queue| && (forall i :: 0 <= i < |shares| ==> shares[i] > 0)
      modifies `weight, `running, `load, `hRunning
      ensures Progress(sh, c0, View(), t, exhausted) && Attached() && running == old(running)
      ensures |weight| == |old(weight)| == |sh.queue| && forall x: nat :: sh.IsEntity(x) ==>
        weight[x] == if sh.owner[x] > 0 && Climbed(sh, throttled, e, x) then shares[x] else old(weight)[x]
      ensures Balanced(sh, View().(rqRunning := rqRunning + if pastRoot then d else 0))
    {
      hide HBehind, LocalExact, EntitiesFollowExcept;
      var se := e;
      RaisedStart(sh, throttled, e, weight, shares);
      while se != NoEntity
        invariant CountWalk(sh, c0, View(), se, d, t, exhausted) && Attached() && running == old(running)
        invariant |throttled| == |sh.entity| && |weight| == |old(weight)| == |sh.queue|
        invariant Raised(sh, throttled, e, se, old(weight), weight, shares)
        decreases if se == NoEntity then -1 else sh.queue[se]
      {
        hide Above, Balanced, Progress, SameTasksBut, Raised, Climbed;
        ghost var w := weight;
        if throttled[sh.queue[se]] {
          RaisedDone(sh, throttled, e, se, old(weight), w, shares);
        } else {
          RaisedNext(sh, throttled, e, se, old(weight), w, shares);
        }
        var stop := AdjustLevel(se, d, shares, c0, t, exhausted);
        if stop { return false; }
        se := ParentEntity(sh, sh.queue[se]);
      }
      AboveDone(sh, View(), 0, d);
      RaisedDone(sh, throttled, e, se, old(weight), weight, shares);
      return true;
    }

    /** One round of the first loop of enqueue_task_fair; `stop`: the queue is throttled. */
    method EnterOne(t: nat, se: nat, shares: seq<nat>, exhausted: set<nat>, ghost c0: Counts) returns (stop: bool)
      requires EnterWalk(sh, c0, View(), se, 1, t, exhausted) && Attached() && sh.IsEntity(t) && !on[se]
      requires |shares| == |sh.queue| && (forall i :: 0 <= i < |shares| ==> shares[i] > 0) && 0 !in exhausted
      requires Sizes(sh, on, throttled, weight) && Sizes(sh, c0.on, throttled, c0.weight) && sh.IsEntity(se)
      requires EnterPath(sh, t, se, c0.on, c0.weight, on, throttled, weight, shares)
      modifies this
      ensures Attached() && on[t] && Sizes(sh, on, throttled, weight) && Sizes(sh, c0.on, throttled, c0.weight)
      ensures stop ==> CountWalk(sh, c0, View(), se, 1, t, exhausted)
      ensures stop ==> Handover(sh, t, se, c0.on, c0.weight, on, throttled, weight, shares)
      ensures !stop ==> EnterWalk(sh, c0, View(), ParentEntity(sh, sh.queue[se]), 1, t, exhausted)
      ensures !stop ==>
        EnterPath(sh, t, ParentEntity(sh, sh.queue[se]), c0.on, c0.weight, on, throttled, weight, shares)
    {
      hide HBehind, LocalExact, EntitiesFollowExcept, Entering, Ascending, Above, SameTasksBut, EnterPath, Handover;
      EnterLevel(sh, c0, View(), se, 1, t, shares, exhausted);
      var q := sh.queue[se];
      EnterBlocked(sh, t, se, c0.on, c0.weight, on, throttled, weight, shares);
      if !throttled[q] { EnterPathNext(sh, t, se, c0.on, c0.weight, on, throttled, weight, shares); }
      ghost var thr := throttled;
      EnqueueEntity(se, shares, exhausted);
      assert throttled == thr[q := throttled[q]];
      stop := throttled[q];
      if !stop { hRunning := hRunning[q := hRunning[q] + 1]; }
    }

    /** The first loop of enqueue_task_fair: queue the entities up to the first queued one,
        or to the first throttled queue. */
    method EnterAll(t: nat, shares: seq<nat>, exhausted: set<nat>) returns (se: int)
      requires EnterWalk(sh, View(), View(), t, 1, t, exhausted) && Attached() && sh.IsEntity(t) && !on[t]
      requires |shares| == |sh.queue| && (forall i :: 0 <= i < |shares| ==> shares[i] > 0) && 0 !in exhausted
      modifies this
      ensures CountWalk(sh, old(View()), View(), se, 1, t, exhausted) && Attached() && on[t]
      ensures Sizes(sh, on, throttled, weight) && Sizes(sh, old(on), throttled, old(weight))
      ensures Handover(sh, t, se, old(on), old(weight), on, throttled, weight, shares)
    {
      hide HBehind, LocalExact, EntitiesFollowExcept, EnterPath, Handover;
      ghost var c0 := View();
      se := t;
      EnterPathStart(sh, t, on, throttled, weight, shares);
      while se != NoEntity
        invariant EnterWalk(sh, c0, View(), se, 1, t, exhausted) && Attached()
        invariant Sizes(sh, on, throttled, weight) && Sizes(sh, c0.on, throttled, c0.weight)
        invariant EnterPath(sh, t, se, c0.on, c0.weight, on, throttled, weight, shares)
        decreases if se == NoEntity then -1 else sh.queue[se]
      {
        hide Entering, Ascending, Above, SameTasksBut, Progress;
        if on[se] {
          EnterWalkMeets(sh, c0, View(), se, 1, t, exhausted);
          EnterHandsOver(sh, t, se, c0.on, c0.weight, on, throttled, weight, shares);
          return;
        }
        var stop := EnterOne(t, se, shares, exhausted, c0);
        if stop { return; }
        se := ParentEntity(sh, sh.queue[se]);
      }
      EnterHandsOver(sh, t, se, c0.on, c0.weight, on, throttled, weight, shares);
    }

    method EnqueueTask(t: nat, shares: seq<nat>, exhausted: set<nat>)
      requires Valid() && sh.IsEntity(t) && sh.owner[t] == 0 && !on[t]
      requires |shares| == |sh.queue| && (forall i :: 0 <= i < |shares| ==> shares[i] > 0) && 0 !in exhausted
      modifies this
      ensures Valid() && on[t] && Progress(sh, old(View()), View(), t, exhausted)
      ensures Reweighed(sh, old(on), old(weight), on, throttled, weight, t, shares)
    {
      hide HBehind, LocalExact, EntitiesFollowExcept, Handover, Reweighed;
      ghost var c0 := View();
      EnterStart(sh, c0, t);
      var se := EnterAll(t, shares, exhausted);
      ghost var w := weight;
      var pastRoot := AdjustAbove(se, 1, shares, c0, t, exhausted);
      WalkReweighs(sh, t, se, c0.on, c0.weight, on, throttled, w, weight, shares);
      if pastRoot { rqRunning := rqRunning + 1; }
    }

    /** One round of the first loop of dequeue_task_fair: does it stop at a throttled queue, or at one
        that stays non-empty? */
    method LeaveOne(t: nat, se: nat, ghost shares: seq<nat>, ghost c0: Counts)
      returns (blocked: bool, stays: bool, up: int)
      requires sh.IsEntity(t) && sh.IsEntity(se)
      requires LeaveWalk(sh, c0, View(), se, t) && Attached() && |shares| == |sh.queue|
      requires Sizes(sh, on, throttled, weight) && Sizes(sh, c0.on, throttled, weight) && weight == c0.weight
      requires LeavePath(sh, t, se, c0.on, on, throttled)
      modifies this
      ensures Attached() && |on| == |sh.queue| && !on[t] && weight == c0.weight
      ensures Sizes(sh, on, throttled, weight) && Sizes(sh, c0.on, throttled, c0.weight)
      ensures up == ParentEntity(sh, sh.queue[se])
      ensures blocked ==> CountWalk(sh, c0, View(), se, -1, t, {})
      ensures blocked ==> Handover(sh, t, se, c0.on, c0.weight, on, throttled, weight, shares)
      ensures blocked ==> |next| == |sh.entity| && Biased(sh, t, c0.on, on, throttled, next)
      ensures !blocked ==> LeavePath(sh, t, up, c0.on, on, throttled)
      ensures !blocked && stays ==> CountWalk(sh, c0, View(), up, -1, t, {})
      ensures !blocked && !stays ==> LeaveWalk(sh, c0, View(), up, t)
    {
      hide HBehind, LocalExact, EntitiesFollowExcept, LeavePath, Handover, CountWalk, LeaveWalk, BuddiesOn, TreesHold,
        TurnOff, AddH, Biased;
      ghost var c := View();
      ghost var on0 := on;
      BuddiesSized(sh, on, next);
      if throttled[sh.queue[se]] { BiasedBlocked(sh, t, se, c0.on, on, throttled, next); }
      LeaveStep(sh, c0, c, se, t, shares);
      var q := sh.queue[se];
      up := ParentEntity(sh, q);
      DequeueEntity(se);
      ghost var c1 := TurnOff(sh, c, se);
      assert View() == c1 && on == on0[se := false];
      BuddiesSized(sh, on, next);
      if throttled[q] { return true, false, up; }
      hRunning := hRunning[q := hRunning[q] - 1];
      assert View() == AddH(c1, q, -1) by { AddHIs(c1, q, -1); }
      return false, load[q] != 0, up;
    }

    /** The first loop of dequeue_task_fair: take off the entities whose queues become empty. */
    method LeaveAll(t: nat, bias: bool, ghost shares: seq<nat>) returns (se: int)
      requires LeaveWalk(sh, View(), View(), t, t) && Attached() && |shares| == |sh.queue|
      modifies this
      ensures CountWalk(sh, old(View()), View(), se, -1, t, {}) && Attached() && !on[t]
      ensures Sizes(sh, on, throttled, weight) && Sizes(sh, old(on), throttled, old(weight))
      ensures Handover(sh, t, se, old(on), old(weight), on, throttled, weight, shares)
      ensures bias ==> |next| == |sh.entity| && Biased(sh, t, old(on), on, throttled, next)
    {
      hide HBehind, LocalExact, EntitiesFollowExcept, LeavePath, Handover, Biased, WalkedAll;
      ghost var c0 := View();
      se := t;
      LeavePathStart(sh, t, on, throttled);
      while se != NoEntity
        invariant LeaveWalk(sh, c0, View(), se, t) && Attached()
        invariant Sizes(sh, on, throttled, weight) && Sizes(sh, c0.on, throttled, weight) && weight == c0.weight
        invariant LeavePath(sh, t, se, c0.on, on, throttled)
        decreases if se == NoEntity then -1 else sh.queue[se]
      {
        hide Leaving, Ascending, Above, Progress, SameTasksBut;
        var blocked, stays, up := LeaveOne(t, se, shares, c0);
        if blocked { return; }
        se := up;
        if stays {
          LeaveHandsOver(sh, t, se, c0.on, on, throttled, weight, shares);
          ghost var before := next;
          if bias && se != NoEntity { SetNextBuddy(se, false); }
          if bias { BiasedStays(sh, t, se, c0.on, on, throttled, before, next); }
          return;
        }
      }
      BiasedStays(sh, t, se, c0.on, on, throttled, next, next);
      LeaveHandsOver(sh, t, se, c0.on, on, throttled, weight, shares);
    }

    /** `bias`: the task sleeps and its hierarchy is not throttled. */
    method DequeueTask(t: nat, shares: seq<nat>, bias: bool)
      requires Valid() && sh.IsEntity(t) && sh.owner[t] == 0 && on[t]
      requires |shares| == |sh.queue| && forall i :: 0 <= i < |shares| ==> shares[i] > 0
      modifies this
      ensures Valid() && !on[t] && Progress(sh, old(View()), View(), t, {})
      ensures bias ==> Biased(sh, t, old(on), on, throttled, next)
      ensures Reweighed(sh, old(on), old(weight), on, throttled, weight, t, shares)
    {
      hide HBehind, LocalExact, EntitiesFollowExcept, Handover, Reweighed, Biased;
      ghost var c0 := View();
      LeaveStart(sh, c0, t);
      var se := LeaveAll(t, bias, shares);
      ghost var w := weight;
      var pastRoot := AdjustAbove(se, -1, shares, c0, t, {});
      WalkReweighs(sh, t, se, c0.on, c0.weight, on, throttled, w, weight, shares);
      if pastRoot { rqRunning := rqRunning - 1; }
    }

    /** The body of the loop in unthrottle_cfs_rq. */
    method RestoreEntity(e: nat, delta: int, enqueue: bool, shares: seq<nat>, exhausted: set<nat>)
      requires Fits(sh, View()) && Attached() && sh.IsEntity(e)
      requires |shares| == |sh.queue| && (forall i :: 0 <= i < |shares| ==> shares[i] > 0) && 0 !in exhausted
      requires enqueue ==> LocalExact(sh, View()) && !on[e]
      requires enqueue && sh.queue[e] > 0 && running[sh.queue[e]] == 0 ==> !on[sh.entity[sh.queue[e]]]
      modifies this
      ensures Attached()
      ensures View() == AddH(if enqueue then EnqueueEntityCounts(sh, old(View()), e, shares, exhausted)
                             else old(View()), sh.queue[e], delta)
    {
      hide HBehind, LocalExact, EntitiesFollowExcept;
      var q := sh.queue[e];
      if enqueue { EnqueueEntity(e, shares, exhausted); }
      hRunning := hRunning[q := hRunning[q] + delta];
    }

    method UnthrottleCfsRq(a: nat, shares: seq<nat>, exhausted: set<nat>)
      requires Valid() && 0 < a < |sh.entity| && throttled[a]
      requires |shares| == |sh.queue| && (forall i :: 0 <= i < |shares| ==> shares[i] > 0) && 0 !in exhausted
      modifies this
      ensures Valid()
      ensures Progress(sh, old(View()).(throttled := old(throttled)[a := false]), View(), NoEntity, exhausted)
      ensures Added(sh, old(on), old(weight), on, weight, shares)
    {
      hide HBehind, LocalExact, EntitiesFollowExcept;
      UnthrottleStart(sh, View(), a);
      throttled := throttled[a := false];
      ghost var c0 := View();
      if load[a] == 0 { return; }
      var delta, enqueue := hRunning[a], true;
      var se: int := sh.entity[a];
      while se != NoEntity
        invariant Attached()
        invariant enqueue ==> EnterWalk(sh, c0, View(), se, delta, NoEntity, exhausted)
        invariant !enqueue ==> CountWalk(sh, c0, View(), se, delta, NoEntity, exhausted)
        invariant se != NoEntity ==> sh.IsEntity(se) && sh.owner[se] > 0
        invariant Added(sh, c0.on, c0.weight, on, weight, shares)
        decreases if se == NoEntity then -1 else sh.queue[se]
      {
        hide Entering, Ascending, Above, SameTasksBut, Progress, Balanced, Added;
        AddedNext(sh, c0.on, c0.weight, on, weight, shares, se);
        if on[se] {
          if enqueue { EnterWalkMeets(sh, c0, View(), se, delta, NoEntity, exhausted); }
          enqueue := false;
        }
        RestoreLevel(sh, c0, View(), se, delta, enqueue, shares, exhausted);
        var q := sh.queue[se];
        RestoreEntity(se, delta, enqueue, shares, exhausted);
        if throttled[q] { return; }
        se := ParentEntity(sh, q);
      }
      AboveDone(sh, View(), 0, delta);
      rqRunning := rqRunning + delta;
    }
  }
}
