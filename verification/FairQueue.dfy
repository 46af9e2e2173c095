/** One cfs_rq over its timeline: enqueue, dequeue, set_next and put_prev of entities,
    min_vruntime, and pick_next_entity with its buddies. */
module FairQueues {
  import opened Wrap64
  import opened Seqs
  import opened Timeline

  class FairQueue {
    var vruntime: seq<U64>
    var on: seq<bool>
    var tree: Tree
    var leftmost: int
    var curr: int
    var minVruntime: U64
    var last: int
    var next: int
    var skip: int
    /** When each entity last entered the tree, and the next such number. */
    ghost var arrival: seq<nat>
    ghost var ticks: nat

    ghost function Queued(): seq<nat>
      reads this
    {
      InOrder(tree)
    }

    ghost predicate Structure()
      reads this
    {
      |on| == |vruntime| && Holds(Queued(), on, curr) && leftmost == First(Queued())
    }

    ghost predicate BuddiesQueued()
      reads this
    {
      && (last != NoEntity ==> IsEntity(last) && on[last])
      && (next != NoEntity ==> IsEntity(next) && on[next])
    }

    ghost predicate Arrivals()
      reads this
      requires |on| == |vruntime| && Within(Queued(), |vruntime|)
    {
      |arrival| == |vruntime| && ArrivalOrder(Queued(), vruntime, arrival) && Stamped(Queued(), arrival, ticks)
    }

    /** In order of virtual time, equal keys in order of arrival. */
    ghost predicate Valid()
      reads this
    {
      Structure() && Ordered(Queued(), vruntime) && Arrivals() && BuddiesQueued()
    }

    predicate IsEntity(e: int)
      reads this
    {
      0 <= e < |on|
    }

    constructor (v: seq<U64>, m: U64)
      ensures Valid() && vruntime == v && minVruntime == m && curr == NoEntity
      ensures forall e :: IsEntity(e) ==> !on[e]
    {
      vruntime := v;
      on := seq(|v|, _ => false);
      tree := Leaf;
      leftmost, curr := NoEntity, NoEntity;
      last, next, skip := NoEntity, NoEntity, NoEntity;
      minVruntime := m;
      arrival, ticks := seq(|v|, _ => 0), 0;
    }

    // ---- __enqueue_entity and __dequeue_entity ----

    /** The order is kept when the new key lies in the window of the keys already there. */
    method EnqueueTree(e: nat, ghost base: U64) returns (ghost place: nat)
      requires Within(Queued(), |vruntime|) && e < |vruntime| && leftmost == First(Queued())
      requires Ordered(Queued(), vruntime) && Windowed(Queued(), vruntime, base)
      requires |on| == |vruntime| && Arrivals() && e !in Queued()
      modifies `tree, `leftmost, `arrival, `ticks
      ensures place <= |old(Queued())| && Queued() == old(Queued())[..place] + [e] + old(Queued())[place..]
      ensures forall x :: x in Queued() <==> x in old(Queued()) || x == e
      ensures Distinct(old(Queued())) ==> Distinct(Queued())
      ensures leftmost == First(Queued()) && Within(Queued(), |vruntime|)
      ensures InWindow(base, vruntime[e]) ==>
        Entered(old(Queued()), Queued(), vruntime, e, place) && Ordered(Queued(), vruntime) && Arrivals()
    {
      hide Before, InWindow, Rel, Ordered, Windowed, Within, First, Distinct, NoneAfter, AllAfter,
        ArrivalOrder, Stamped;
      ghost var s := Queued();
      var pos, first := FindLink(tree, vruntime, e, base);
      place := pos;
      if first { leftmost := e; }
      assert s == s[..pos] + s[pos..];
      InsertInOrder(tree, s[..pos], e, s[pos..]);
      tree := InsertAt(tree, pos, e);
      Inserted(s, Queued(), e, pos, |vruntime|);
      if InWindow(base, vruntime[e]) {
        EnteredOrdered(s, Queued(), vruntime, base, e, pos);
        EnteredArrival(s, Queued(), vruntime, e, pos, arrival, ticks);
      }
      arrival, ticks := arrival[e := ticks], ticks + 1;
    }

    method DequeueTree(e: nat)
      requires e in Queued() && Distinct(Queued()) && leftmost == First(Queued())
      requires Within(Queued(), |vruntime|)
      modifies `tree, `leftmost
      ensures Within(Queued(), |vruntime|) && Distinct(Queued()) && leftmost == First(Queued())
      ensures Queued() == Minus(old(Queued()), e)
      ensures forall x :: x in Queued() <==> x in old(Queued()) && x != e
      ensures Ordered(old(Queued()), vruntime) ==> Ordered(Queued(), vruntime)
    {
      hide Before, Ordered, Distinct, Within, ArrivalOrder, Stamped;
      var s := InOrder(tree);
      var pos := IndexOf(s, e);
      Removed(s, e, pos, vruntime);
      if leftmost == e { leftmost := First(s[1..]); }
      assert s == s[..pos] + [e] + s[pos + 1..];
      EraseInOrder(tree, s[..pos], e, s[pos + 1..]);
      tree := EraseAt(tree, pos);
    }

    // ---- min_vruntime and the running entity ----

    /** The current entity, if it is queued. */
    function Queueing(): (c: int)
      reads this
      requires Structure()
      ensures c == NoEntity || (IsEntity(c) && on[c])
    {
      if curr != NoEntity && on[curr] then curr else NoEntity
    }

    /** Never moves backwards, whatever the keys are. */
    method UpdateMinVruntime()
      requires Structure()
      modifies `minVruntime
      ensures minVruntime == NextMin(old(minVruntime), vruntime, leftmost, Queueing())
      ensures Forward(old(minVruntime), minVruntime)
      ensures minVruntime == old(minVruntime) || exists e :: IsEntity(e) && on[e] && minVruntime == vruntime[e]
    {
      hide Before;
      var c := curr;
      var v := minVruntime;
      if c != NoEntity {
        if on[c] { v := vruntime[c]; } else { c := NoEntity; }
      }
      if leftmost != NoEntity {
        if c == NoEntity { v := vruntime[leftmost]; } else { v := MinVruntime(v, vruntime[leftmost]); }
      }
      if leftmost != NoEntity { assert Queued()[0] in Queued(); }
      assert v == minVruntime || (c != NoEntity && v == vruntime[c])
        || (leftmost != NoEntity && v == vruntime[leftmost]);
      minVruntime := MaxVruntime(minVruntime, v);
      assert minVruntime == old(minVruntime) || minVruntime == v;
      assert c != NoEntity ==> IsEntity(c) && on[c];
      assert leftmost != NoEntity ==> IsEntity(leftmost) && on[leftmost];
    }

    /** The keys once the current entity has been charged. */
    function Ran(delta: U64): (v: seq<U64>)
      reads this
      requires Structure()
      ensures |v| == |vruntime|
    {
      if curr == NoEntity then vruntime else vruntime[curr := Absolute(vruntime[curr], delta)]
    }

    /** `delta` is the weighted execution time, 0 when the clock has not advanced. */
    method UpdateCurr(delta: U64)
      requires Structure()
      modifies `vruntime, `minVruntime
      ensures Structure() && Forward(old(minVruntime), minVruntime)
      ensures vruntime == old(Ran(delta))
      ensures minVruntime == if curr == NoEntity || delta == 0 then old(minVruntime)
                             else NextMin(old(minVruntime), vruntime, leftmost, Queueing())
      ensures old(Ordered(Queued(), vruntime)) ==> Ordered(Queued(), vruntime)
      ensures old(Arrivals()) ==> Arrivals()
    {
      hide Before, ArrivalOrder, Stamped;
      if curr == NoEntity || delta == 0 { return; }
      ghost var v := vruntime;
      if Ordered(Queued(), vruntime) { OrderedFrame(Queued(), vruntime, curr, (vruntime[curr] + delta) % TWO64); }
      vruntime := vruntime[curr := (vruntime[curr] + delta) % TWO64];
      KeepArrivals(v);
      UpdateMinVruntime();
    }

    /** Keys outside the tree do not matter. */
    lemma KeepArrivals(v: seq<U64>)
      requires |on| == |vruntime| == |v| && Within(Queued(), |vruntime|)
      requires forall x :: 0 <= x < |v| && x in Queued() ==> vruntime[x] == v[x]
      ensures |arrival| == |v| && ArrivalOrder(Queued(), v, arrival) && Stamped(Queued(), arrival, ticks) ==> Arrivals()
    {
      hide ArrivalOrder, Stamped;
      var s := Queued();
      assert forall i :: 0 <= i < |s| ==> s[i] in s;
      if |arrival| == |v| && ArrivalOrder(s, v, arrival) { ArrivalFrame(s, v, vruntime, arrival); }
    }

    // ---- Entities coming and going ----

    /** place_entity: a new entity at least `debit` after min_vruntime, a sleeper at most `thresh`
        before it, and nobody backwards. */
    method PlaceEntity(e: nat, initial: bool, debit: U64, thresh: U64)
      requires e < |vruntime|
      modifies `vruntime
      ensures |vruntime| == |old(vruntime)| && vruntime == old(vruntime)[e := vruntime[e]]
      ensures Forward(old(vruntime)[e], vruntime[e])
      ensures var place := if initial then (minVruntime + debit) % TWO64 else (minVruntime - thresh) % TWO64;
        && (vruntime[e] == old(vruntime)[e] || vruntime[e] == place) && Diff(place, vruntime[e]) <= 0
        && vruntime[e] == MaxVruntime(old(vruntime)[e], place)
    {
      var place := if initial then (minVruntime + debit) % TWO64 else (minVruntime - thresh) % TWO64;
      vruntime := vruntime[e := MaxVruntime(vruntime[e], place)];
    }

    /** The key of an entity off the queue becomes absolute again. */
    method Renormalise(e: nat)
      requires Structure() && Ordered(Queued(), vruntime) && Arrivals() && e < |vruntime| && e !in Queued()
      modifies `vruntime
      ensures Structure() && Ordered(Queued(), vruntime) && Arrivals()
      ensures vruntime == old(vruntime)[e := Absolute(old(vruntime)[e], minVruntime)]
    {
      hide Before, Ordered, Distinct, ArrivalOrder, Stamped;
      ghost var v := vruntime;
      OrderedFrame(Queued(), vruntime, e, Absolute(vruntime[e], minVruntime));
      vruntime := vruntime[e := (vruntime[e] + minVruntime) % TWO64];
      KeepArrivals(v);
    }

    /** place_entity for an entity off the queue. */
    method PlaceOutside(e: nat, thresh: U64)
      requires Structure() && Ordered(Queued(), vruntime) && Arrivals() && e < |vruntime| && e !in Queued()
      modifies `vruntime
      ensures Structure() && Ordered(Queued(), vruntime) && Arrivals()
      ensures vruntime == old(vruntime)[e := MaxVruntime(old(vruntime)[e], Relative(minVruntime, thresh))]
    {
      hide Before, Ordered, Distinct, ArrivalOrder, Stamped, Diff;
      ghost var v := vruntime;
      PlaceEntity(e, false, 0, thresh);
      OrderedFrame(Queued(), v, e, vruntime[e]);
      KeepArrivals(v);
    }

    /** update_curr, renormalisation and placement of an entity that is not in the tree. */
    method RenewKey(e: nat, renorm: bool, wakeup: bool, delta: U64, thresh: U64)
      requires Structure() && Ordered(Queued(), vruntime) && Arrivals() && IsEntity(e) && !on[e]
      modifies `vruntime, `minVruntime
      ensures Structure() && Ordered(Queued(), vruntime) && Arrivals() && |vruntime| == |old(vruntime)|
      ensures Forward(old(minVruntime), minVruntime)
      ensures vruntime[e] == EnteringKey(old(vruntime)[e], old(minVruntime), minVruntime, curr == e,
                                         if curr == e then delta else 0, renorm, wakeup, thresh)
      ensures forall x :: 0 <= x < |vruntime| && x != e ==>
        vruntime[x] == if x == curr then Absolute(old(vruntime)[x], delta) else old(vruntime)[x]
      ensures minVruntime == if curr == NoEntity || delta == 0 then old(minVruntime)
                             else NextMin(old(minVruntime), vruntime, leftmost, Queueing())
    {
      hide Before, Ordered, Distinct, ArrivalOrder, Stamped, MaxVruntime, Forward, NextMin;
      var isCurr := curr == e;
      if renorm && isCurr { Renormalise(e); }
      UpdateCurr(delta);
      ghost var v := vruntime;
      if renorm && !isCurr { Renormalise(e); }
      if wakeup { PlaceOutside(e, thresh); }
      SameMin(v, old(minVruntime), e);
    }

    /** The key of an entity that is not queued does not matter to min_vruntime. */
    lemma SameMin(v: seq<U64>, m: U64, e: nat)
      requires Structure() && IsEntity(e) && !on[e] && |v| == |vruntime| && vruntime == v[e := vruntime[e]]
      ensures NextMin(m, v, leftmost, Queueing()) == NextMin(m, vruntime, leftmost, Queueing())
    {
      hide MaxVruntime, MinVruntime, Distinct;
      assert leftmost != NoEntity ==> leftmost == Queued()[0] && Queued()[0] in Queued();
    }

    /** renorm: the key is relative to min_vruntime; wakeup: the entity slept. */
    method EnqueueEntity(e: nat, renorm: bool, wakeup: bool, delta: U64, thresh: U64, ghost base: U64)
      returns (ghost place: nat)
      requires Valid() && IsEntity(e) && !on[e] && Windowed(Queued(), vruntime, base)
      modifies this
      ensures Structure() && BuddiesQueued() && on == old(on)[e := true] && curr == old(curr)
      ensures Forward(old(minVruntime), minVruntime)
      ensures InWindow(base, vruntime[e]) ==> Valid()
      ensures InWindow(base, vruntime[e]) && curr != e ==> Entered(old(Queued()), Queued(), vruntime, e, place)
      ensures |vruntime| == |old(vruntime)| && forall x :: 0 <= x < |vruntime| && x != e ==>
        vruntime[x] == if x == curr then Absolute(old(vruntime)[x], delta) else old(vruntime)[x]
      ensures vruntime[e] == EnteringKey(old(vruntime)[e], old(minVruntime), minVruntime, curr == e,
                                         if curr == e then delta else 0, renorm, wakeup, thresh)
      ensures minVruntime == if curr == NoEntity || delta == 0 then old(minVruntime)
                             else NextMin(old(minVruntime), vruntime, old(leftmost), old(Queueing()))
    {
      hide NextMin, EnteringKey, Absolute, Before, InWindow, Rel, Ordered, Windowed, NoneAfter, AllAfter, Distinct,
        Forward, ArrivalOrder, Stamped;
      ghost var s, v0 := Queued(), vruntime;
      RenewKey(e, renorm, wakeup, delta, thresh);
      forall i | 0 <= i < |s| ensures vruntime[s[i]] == v0[s[i]] { assert s[i] in s; }
      WindowedFrame(s, v0, vruntime, base);
      if curr != e {
        place := EnqueueTree(e, base);
        HoldsAdd(s, Queued(), on, curr, e, place);
      } else {
        HoldsCurr(s, on, curr, true);
        place := 0;
      }
      on := on[e := true];
    }

    // ---- Buddies ----

    /** set_last_buddy as far as this queue goes; a SCHED_IDLE task becomes nobody's buddy. */
    method SetLastBuddy(e: nat, idle: bool)
      requires Valid() && IsEntity(e)
      modifies `last
      ensures Valid() && last == if !idle && on[e] then e else old(last)
    {
      if idle || !on[e] { return; }
      last := e;
    }

    method SetNextBuddy(e: nat, idle: bool)
      requires Valid() && IsEntity(e)
      modifies `next
      ensures Valid() && next == if !idle && on[e] then e else old(next)
    {
      if idle || !on[e] { return; }
      next := e;
    }

    /** Even an entity that is not queued may be the one to skip. */
    method SetSkipBuddy(e: nat)
      requires Valid() && IsEntity(e)
      modifies `skip
      ensures Valid() && skip == e
    {
      skip := e;
    }

    method ClearBuddies(e: int)
      modifies `last, `next, `skip
      ensures last == if old(last) == e then NoEntity else old(last)
      ensures next == if old(next) == e then NoEntity else old(next)
      ensures skip == if old(skip) == e then NoEntity else old(skip)
    {
      if last == e { last := NoEntity; }
      if next == e { next := NoEntity; }
      if skip == e { skip := NoEntity; }
    }

    /** Out of the tree, unless it is the current entity, and off the queue. */
    method TakeOff(e: nat)
      requires Structure() && Ordered(Queued(), vruntime) && Arrivals() && IsEntity(e) && on[e]
      modifies `tree, `leftmost, `on
      ensures Structure() && Ordered(Queued(), vruntime) && Arrivals() && e !in Queued() && on == old(on)[e := false]
      ensures Queued() == Minus(old(Queued()), e)
    {
      hide Before, Ordered, Distinct, ArrivalOrder, Stamped;
      ghost var s := Queued();
      MinusArrival(s, vruntime, e, arrival, ticks);
      if e != curr {
        DequeueTree(e);
        HoldsDrop(s, Queued(), on, curr, e);
      } else {
        HoldsCurr(s, on, curr, false);
      }
      on := on[e := false];
    }

    /** The key of an entity off the queue becomes relative to min_vruntime. */
    method Denormalise(e: nat)
      requires Structure() && Ordered(Queued(), vruntime) && Arrivals() && e < |vruntime| && e !in Queued()
      modifies `vruntime
      ensures Structure() && Ordered(Queued(), vruntime) && Arrivals()
      ensures vruntime == old(vruntime)[e := Relative(old(vruntime)[e], minVruntime)]
    {
      hide Before, Ordered, Distinct, ArrivalOrder, Stamped;
      ghost var v := vruntime;
      OrderedFrame(Queued(), vruntime, e, (vruntime[e] - minVruntime) % TWO64);
      vruntime := vruntime[e := (vruntime[e] - minVruntime) % TWO64];
      KeepArrivals(v);
    }

    /** The part of dequeue_entity up to the entity's leaving. */
    method Leave(e: nat, sleep: bool, delta: U64)
      requires Valid() && IsEntity(e) && on[e]
      modifies this
      ensures Valid() && on == old(on)[e := false] && curr == old(curr) && last != e && next != e && skip != e
      ensures Queued() == Minus(old(Queued()), e)
      ensures vruntime == old(Ran(delta))[e := LeavingKey(old(Ran(delta))[e], minVruntime, sleep)]
      ensures minVruntime ==
        if curr == NoEntity || delta == 0 then old(minVruntime)
        else NextMin(old(minVruntime), old(Ran(delta)), old(leftmost), old(Queueing()))
      ensures Forward(old(minVruntime), minVruntime)
    {
      hide Relative, Ran, NextMin, Before, Ordered, Diff, Distinct, Forward, ArrivalOrder, Stamped, Minus, Within,
        First, InOrder;
      UpdateCurr(delta);
      ClearBuddies(e);
      TakeOff(e);
      if !sleep { Denormalise(e); }
    }

    /** mid: min_vruntime when the entity leaves; sleep: the key stays absolute; restore: DEQUEUE_SAVE
        without DEQUEUE_MOVE. */
    method DequeueEntity(e: nat, sleep: bool, restore: bool, delta: U64) returns (ghost mid: U64)
      requires Valid() && IsEntity(e) && on[e]
      modifies this
      ensures Valid() && on == old(on)[e := false] && curr == old(curr) && last != e && next != e && skip != e
      ensures Forward(old(minVruntime), mid) && Forward(mid, minVruntime)
      ensures Queued() == Minus(old(Queued()), e)
      ensures vruntime == old(Ran(delta))[e := LeavingKey(old(Ran(delta))[e], mid, sleep)]
      ensures mid ==
        if curr == NoEntity || delta == 0 then old(minVruntime)
        else NextMin(old(minVruntime), old(Ran(delta)), old(leftmost), old(Queueing()))
      ensures minVruntime == if restore then NextMin(mid, vruntime, leftmost, Queueing()) else mid
    {
      hide NextMin, Before, Ordered, Diff, Distinct, Forward, ArrivalOrder, Stamped, Minus, Within, First, InOrder,
        LeavingKey, Ran;
      Leave(e, sleep, delta);
      mid := minVruntime;
      StaysForward(minVruntime);
      if restore { UpdateMinVruntime(); }
    }

    /** The current entity is not kept within the tree. */
    method SetNextEntity(e: nat)
      requires Valid() && IsEntity(e) && curr == NoEntity
      modifies `tree, `leftmost, `curr
      ensures Valid() && curr == e && Queued() == Minus(old(Queued()), e)
    {
      hide Before, Ordered, Distinct, ArrivalOrder, Stamped;
      ghost var s := Queued();
      MinusArrival(s, vruntime, e, arrival, ticks);
      if on[e] {
        DequeueTree(e);
        HoldsDrop(s, Queued(), on, curr, e);
      }
      curr := e;
    }

    method PutPrevEntity(prev: nat, delta: U64, ghost base: U64) returns (ghost place: nat)
      requires Valid() && IsEntity(prev) && curr == prev && Windowed(Queued(), vruntime, base)
      modifies this
      ensures Structure() && BuddiesQueued() && curr == NoEntity && on == old(on)
      ensures Forward(old(minVruntime), minVruntime)
      ensures !on[prev] || InWindow(base, vruntime[prev]) ==> Valid()
      ensures on[prev] && InWindow(base, vruntime[prev]) ==> Entered(old(Queued()), Queued(), vruntime, prev, place)
      ensures vruntime == if on[prev] then old(Ran(delta)) else old(vruntime)
      ensures minVruntime == if !on[prev] || delta == 0 then old(minVruntime)
                             else NextMin(old(minVruntime), vruntime, old(leftmost), prev)
    {
      hide NextMin, Before, InWindow, Rel, Ordered, Windowed, NoneAfter, AllAfter, Distinct, Forward, ArrivalOrder,
        Stamped;
      ghost var s, v0 := Queued(), vruntime;
      place := 0;
      StaysForward(minVruntime);
      HoldsCurr(s, on, curr, on[prev]);
      if on[prev] {
        UpdateCurr(delta);
        forall i | 0 <= i < |s| ensures vruntime[s[i]] == v0[s[i]] { assert s[i] in s; }
        WindowedFrame(s, v0, vruntime, base);
        place := EnqueueTree(prev, base);
        HoldsAdd(s, Queued(), on, curr, prev, place);
      }
      curr := NoEntity;
    }

    /** The choice of pick_next_entity. */
    method Choose(cur: int, gran: seq<nat>) returns (se: int, least: int)
      requires Structure() && |gran| == |vruntime| && -1 <= cur < |vruntime| && (Queued() != [] || cur != NoEntity)
      requires -1 <= last < |vruntime| && -1 <= next < |vruntime|
      ensures se == Pick(Queued(), vruntime, gran, cur, last, next, skip)
      ensures least == Earlier(vruntime, First(Queued()), cur) && 0 <= least < |vruntime|
    {
      hide Before, Distinct, WakeupPreempt;
      var s := InOrder(tree);
      least := Earlier(vruntime, leftmost, cur);
      se := least;
      if skip == se {
        var second := if se == cur then leftmost else Earlier(vruntime, First(s[1..]), cur);
        if second != NoEntity && WakeupPreempt(vruntime, gran, second, least) < 1 { se := second; }
      }
      if last != NoEntity && WakeupPreempt(vruntime, gran, last, least) < 1 { se := last; }
      if next != NoEntity && WakeupPreempt(vruntime, gran, next, least) < 1 { se := next; }
    }

    method PickNextEntity(cur: int, gran: seq<nat>, ghost base: U64) returns (se: nat, ghost least: nat)
      requires Valid() && |gran| == |vruntime| && Windowed(Queued(), vruntime, base)
      requires cur == if curr != NoEntity && on[curr] then curr else NoEntity
      requires Queued() != [] || cur != NoEntity
      requires cur != NoEntity ==> InWindow(base, vruntime[cur])
      modifies `last, `next, `skip
      ensures Valid() && IsEntity(se) && on[se] && last != se && next != se && skip != se
      ensures FairPick(Queued(), vruntime, gran, cur, old(last), old(next), old(skip), se, least)
    {
      hide Before, InWindow, Rel, Ordered, Windowed, Diff, IsLeast, Distinct, Pick, Earlier, FairPick,
        ArrivalOrder, Stamped;
      PickIsFair(Queued(), vruntime, gran, cur, last, next, skip, base);
      var p, left := Choose(cur, gran);
      PickMember(Queued(), vruntime, gran, cur, last, next, skip, p, left);
      se, least := p, left;
      ClearBuddies(se);
    }
  }
}
