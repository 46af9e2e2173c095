/** The hierarchy of run queues of one cpu: which entities are queued, the counts every
    queue keeps incrementally, throttling, and the buddies. Bottom-up walks touch one path;
    the invariant speaks about the whole tree. */
module RunQueueTree {
  import opened Sums
  import opened GroupTree
  import Timeline

  const NoEntity := -1

  /** Per entity: queued?, weight. Per queue: throttled, nr_running, load.weight, h_nr_running.
      rqRunning is the fair part of rq->nr_running. */
  datatype Counts = Counts(on: seq<bool>, weight: seq<nat>, throttled: seq<bool>,
                           running: seq<int>, load: seq<int>, hRunning: seq<int>, rqRunning: int)

  /** The root is never bandwidth limited, and weights are positive. */
  ghost predicate Fits(sh: Shape, c: Counts) {
    && sh.WellFormed()
    && |c.on| == |c.weight| == |sh.queue|
    && |c.throttled| == |c.running| == |c.load| == |c.hRunning| == |sh.entity|
    && !c.throttled[0]
    && (forall e :: 0 <= e < |c.weight| ==> c.weight[e] > 0)
  }

  ghost function RunningTerms(sh: Shape, c: Counts, q: nat): (r: seq<int>)
    requires Fits(sh, c)
    ensures |r| == |sh.queue|
  {
    seq(|sh.queue|, e requires 0 <= e < |sh.queue| => if sh.queue[e] == q && c.on[e] then 1 else 0)
  }

  ghost function LoadTerms(sh: Shape, c: Counts, q: nat): (r: seq<int>)
    requires Fits(sh, c)
    ensures |r| == |sh.queue|
  {
    seq(|sh.queue|, e requires 0 <= e < |sh.queue| => if sh.queue[e] == q && c.on[e] then c.weight[e] else 0)
  }

  ghost function TaskUnits(sh: Shape, c: Counts): (r: seq<int>)
    requires Fits(sh, c)
    ensures |r| == |sh.queue|
  {
    seq(|sh.queue|, e requires 0 <= e < |sh.queue| => if c.on[e] then 1 else 0)
  }

  ghost function QueueUnits(sh: Shape, c: Counts): (r: seq<int>)
    requires Fits(sh, c)
    ensures |r| == |sh.entity|
  {
    seq(|sh.entity|, q requires 0 <= q < |sh.entity| =>
      if q == 0 || c.on[sh.entity[q]] then c.hRunning[q] else 0)
  }

  /** One per queued task of q plus h_nr_running of each queued child queue. */
  ghost function HTerms(sh: Shape, c: Counts, q: nat): (r: seq<int>)
    requires Fits(sh, c)
    ensures |r| == |sh.queue|
  {
    Terms(sh, TaskUnits(sh, c), QueueUnits(sh, c), q)
  }

  /** What entity e contributes to h_nr_running of its queue while it is queued. */
  ghost function Share(sh: Shape, c: Counts, e: nat): int
    requires Fits(sh, c) && sh.IsEntity(e)
  {
    if sh.owner[e] == 0 then 1 else c.hRunning[sh.owner[e]]
  }

  ghost predicate LocalExact(sh: Shape, c: Counts)
    requires Fits(sh, c)
  {
    forall q :: 0 <= q < |sh.entity| ==>
      c.running[q] == Sum(RunningTerms(sh, c, q)) && c.load[q] == Sum(LoadTerms(sh, c, q))
  }

  /** Every h_nr_running is exact, but that of queue `at` is behind by d. */
  ghost predicate HBehind(sh: Shape, c: Counts, at: int, d: int)
    requires Fits(sh, c)
  {
    forall q :: 0 <= q < |sh.entity| ==>
      Sum(HTerms(sh, c, q)) == c.hRunning[q] + (if q == at then d else 0)
  }

  ghost predicate EntityFollows(sh: Shape, c: Counts, q: nat)
    requires Fits(sh, c) && 0 < q < |sh.entity|
  {
    c.on[sh.entity[q]] <==> c.running[q] > 0 && !c.throttled[q]
  }

  ghost predicate EntitiesFollowExcept(sh: Shape, c: Counts, x: int, y: int)
    requires Fits(sh, c)
  {
    forall q :: 0 < q < |sh.entity| && q != x && q != y ==> EntityFollows(sh, c, q)
  }

  ghost predicate Balanced(sh: Shape, c: Counts) {
    && Fits(sh, c)
    && LocalExact(sh, c)
    && HBehind(sh, c, -1, 0)
    && EntitiesFollowExcept(sh, c, -1, -1)
    && c.rqRunning == c.hRunning[0]
  }

  // ---- What single assignments do to the sums ----

  function TurnOn(sh: Shape, c: Counts, e: nat): Counts
    requires sh.IsEntity(e) && |c.on| == |sh.queue| == |c.weight|
    requires sh.queue[e] < |c.running| == |c.load|
  {
    var q := sh.queue[e];
    c.(on := c.on[e := true], running := c.running[q := c.running[q] + 1],
       load := c.load[q := c.load[q] + c.weight[e]])
  }

  function TurnOff(sh: Shape, c: Counts, e: nat): Counts
    requires sh.IsEntity(e) && |c.on| == |sh.queue| == |c.weight|
    requires sh.queue[e] < |c.running| == |c.load|
  {
    var q := sh.queue[e];
    c.(on := c.on[e := false], running := c.running[q := c.running[q] - 1],
       load := c.load[q := c.load[q] - c.weight[e]])
  }

  function AddH(c: Counts, q: nat, d: int): Counts
    requires q < |c.hRunning|
  {
    c.(hRunning := c.hRunning[q := c.hRunning[q] + d])
  }

  lemma SwitchLocal(sh: Shape, c: Counts, c': Counts, e: nat)
    requires Fits(sh, c) && sh.IsEntity(e) && LocalExact(sh, c)
    requires c' == if c.on[e] then TurnOff(sh, c, e) else TurnOn(sh, c, e)
    ensures Fits(sh, c') && LocalExact(sh, c')
  {
    forall q | 0 <= q < |sh.entity|
      ensures c'.running[q] == Sum(RunningTerms(sh, c', q)) && c'.load[q] == Sum(LoadTerms(sh, c', q))
    {
      var r, l := RunningTerms(sh, c, q), LoadTerms(sh, c, q);
      var r', l' := RunningTerms(sh, c', q), LoadTerms(sh, c', q);
      assert r' == r[e := r'[e]];
      assert l' == l[e := l'[e]];
      SumUpdate(r, e, r'[e]);
      SumUpdate(l, e, l'[e]);
    }
  }

  lemma SwitchH(sh: Shape, c: Counts, c': Counts, e: nat, q: nat)
    requires Fits(sh, c) && sh.IsEntity(e) && sh.IsQueue(q)
    requires c' == if c.on[e] then TurnOff(sh, c, e) else TurnOn(sh, c, e)
    ensures Fits(sh, c')
    ensures Sum(HTerms(sh, c', q)) == Sum(HTerms(sh, c, q))
      + (if q != sh.queue[e] then 0 else if c.on[e] then -Share(sh, c, e) else Share(sh, c, e))
  {
    var t, t' := HTerms(sh, c, q), HTerms(sh, c', q);
    forall x | 0 <= x < |sh.queue| && x != e
      ensures t'[x] == t[x]
    {
      if sh.owner[x] > 0 { assert sh.entity[sh.owner[x]] == x; }
    }
    assert t' == t[e := t'[e]];
    SumUpdate(t, e, t'[e]);
  }

  lemma AddHEffect(sh: Shape, c: Counts, p: nat, d: int, q: nat)
    requires Fits(sh, c) && sh.IsQueue(p) && sh.IsQueue(q)
    ensures Fits(sh, AddH(c, p, d))
    ensures Sum(HTerms(sh, AddH(c, p, d), q)) == Sum(HTerms(sh, c, q))
      + (if p > 0 && c.on[sh.entity[p]] && q == sh.Parent(p) then d else 0)
  {
    var c' := AddH(c, p, d);
    var t, t' := HTerms(sh, c, q), HTerms(sh, c', q);
    if p > 0 {
      var e := sh.entity[p];
      forall x | 0 <= x < |sh.queue| && x != e
        ensures t'[x] == t[x]
      {
        if sh.owner[x] > 0 { assert sh.entity[sh.owner[x]] == x; }
      }
      assert t' == t[e := t'[e]];
      SumUpdate(t, e, t'[e]);
    } else {
      assert t' == t;
    }
  }

  lemma AddHLocal(sh: Shape, c: Counts, p: nat, d: int)
    requires Fits(sh, c) && sh.IsQueue(p) && LocalExact(sh, c)
    ensures Fits(sh, AddH(c, p, d)) && LocalExact(sh, AddH(c, p, d))
  {
    var c' := AddH(c, p, d);
    forall q | 0 <= q < |sh.entity|
      ensures RunningTerms(sh, c', q) == RunningTerms(sh, c, q)
      ensures LoadTerms(sh, c', q) == LoadTerms(sh, c, q)
    {
    }
  }

  /** A queue holds no entity exactly when its counters say so. */
  lemma EmptyQueue(sh: Shape, c: Counts, q: nat)
    requires Fits(sh, c) && LocalExact(sh, c) && sh.IsQueue(q)
    ensures c.running[q] >= 0 && c.load[q] >= 0
    ensures c.load[q] == 0 <==> c.running[q] == 0
    ensures c.running[q] == 0 <==> forall e :: 0 <= e < |sh.queue| && sh.queue[e] == q ==> !c.on[e]
    ensures c.running[q] == 0 ==> Sum(HTerms(sh, c, q)) == 0
  {
    var r, l := RunningTerms(sh, c, q), LoadTerms(sh, c, q);
    var zeros := seq(|r|, _ => 0);
    SumZero(zeros);
    SumMonotone(zeros, r);
    SumMonotone(r, l);
    forall e | 0 <= e < |sh.queue| && sh.queue[e] == q && c.on[e]
      ensures c.running[q] > 0
    {
      SumAtLeast(r, e);
    }
    if forall e :: 0 <= e < |sh.queue| && sh.queue[e] == q ==> !c.on[e] {
      assert r == zeros && l == zeros;
      var t := HTerms(sh, c, q);
      forall e | 0 <= e < |t| ensures t[e] == 0 {
        if sh.owner[e] > 0 { assert sh.entity[sh.owner[e]] == e; }
      }
      SumZero(t);
    }
  }

  // ---- Meaning of the counts ----

  /** Is e queued, and is every group entity above it queued? */
  ghost predicate Reaches(sh: Shape, c: Counts, e: nat)
    requires Fits(sh, c) && sh.IsEntity(e)
    decreases sh.queue[e]
  {
    c.on[e] && (sh.queue[e] == 0 || Reaches(sh, c, sh.entity[sh.queue[e]]))
  }

  predicate NoneThrottledAbove(sh: Shape, throttled: seq<bool>, q: nat)
    requires sh.WellFormed() && sh.IsQueue(q) && |throttled| == |sh.entity|
    decreases q
  {
    !throttled[q] && (q == 0 || NoneThrottledAbove(sh, throttled, sh.Parent(q)))
  }

  lemma {:induction false} ReachesIffUnthrottled(sh: Shape, c: Counts, e: nat)
    requires Balanced(sh, c) && sh.IsEntity(e) && c.on[e]
    ensures Reaches(sh, c, e) <==> NoneThrottledAbove(sh, c.throttled, sh.queue[e])
    decreases sh.queue[e]
  {
    var q := sh.queue[e];
    if q > 0 {
      EmptyQueue(sh, c, q);
      assert EntityFollows(sh, c, q);
      if c.on[sh.entity[q]] { ReachesIffUnthrottled(sh, c, sh.entity[q]); }
    }
  }

  /** Queued tasks of queues with no throttled queue at or above them. */
  ghost function RunnableUnits(sh: Shape, c: Counts): (r: seq<int>)
    requires Fits(sh, c)
    ensures |r| == |sh.queue|
  {
    seq(|sh.queue|, e requires 0 <= e < |sh.queue| =>
      if sh.owner[e] == 0 && c.on[e] && NoneThrottledAbove(sh, c.throttled, sh.queue[e]) then 1 else 0)
  }

  /** rq->nr_running counts exactly the queued tasks none of whose queues is throttled. */
  lemma RootCountsRunnableTasks(sh: Shape, c: Counts)
    requires Balanced(sh, c)
    ensures c.rqRunning == c.hRunning[0] == Sum(RunnableUnits(sh, c))
  {
    var v := seq(|sh.queue|, e requires 0 <= e < |sh.queue| => if Reaches(sh, c, e) then 1 else 0);
    var n := seq(|sh.entity|, q requires 0 <= q < |sh.entity| =>
      if q == 0 || Reaches(sh, c, sh.entity[q]) then c.hRunning[q] else 0);
    forall q | 0 <= q < |sh.entity|
      ensures Sum(Terms(sh, v, n, q)) == n[q]
    {
      var t := Terms(sh, v, n, q);
      forall e | 0 <= e < |t|
        ensures t[e] == if q == 0 || Reaches(sh, c, sh.entity[q]) then HTerms(sh, c, q)[e] else 0
      {
        if sh.owner[e] > 0 { assert sh.entity[sh.owner[e]] == e; }
      }
      if q == 0 || Reaches(sh, c, sh.entity[q]) {
        assert t == HTerms(sh, c, q);
      } else {
        SumZero(t);
      }
    }
    ExpandAll(sh, v, n);
    forall e | 0 <= e < |sh.queue|
      ensures TaskTerms(sh, v)[e] == RunnableUnits(sh, c)[e]
    {
      if c.on[e] { ReachesIffUnthrottled(sh, c, e); }
    }
    assert TaskTerms(sh, v) == RunnableUnits(sh, c);
  }

  ghost predicate SameFrom(sh: Shape, c: Counts, c': Counts, k: nat)
    requires Fits(sh, c) && Fits(sh, c')
  {
    && (forall e :: 0 <= e < |sh.queue| && sh.queue[e] >= k ==> c.on[e] == c'.on[e])
    && (forall q :: k <= q < |sh.entity| ==>
          && c.running[q] == c'.running[q] && c.hRunning[q] == c'.hRunning[q]
          && (c.weight == c'.weight ==> c.load[q] == c'.load[q]))
  }

  lemma SameTerms(sh: Shape, c: Counts, c': Counts, k: nat)
    requires Balanced(sh, c) && Balanced(sh, c') && k < |sh.entity| && c.throttled == c'.throttled
    requires SameFrom(sh, c, c', k + 1)
    requires forall e :: sh.IsEntity(e) && sh.owner[e] == 0 ==> c.on[e] == c'.on[e]
    ensures forall e :: 0 <= e < |sh.queue| && sh.queue[e] == k ==> c.on[e] == c'.on[e]
    ensures RunningTerms(sh, c, k) == RunningTerms(sh, c', k) && HTerms(sh, c, k) == HTerms(sh, c', k)
    ensures c.weight == c'.weight ==> LoadTerms(sh, c, k) == LoadTerms(sh, c', k)
  {
    hide LocalExact, HBehind, Sum;
    forall e | 0 <= e < |sh.queue| && sh.queue[e] == k
      ensures c.on[e] == c'.on[e]
    {
      if sh.owner[e] > 0 {
        assert EntityFollows(sh, c, sh.owner[e]) && EntityFollows(sh, c', sh.owner[e]);
      }
    }
    forall e | 0 <= e < |sh.queue| && sh.queue[e] == k && sh.owner[e] > 0
      ensures HTerms(sh, c, k)[e] == HTerms(sh, c', k)[e]
    {
      assert sh.entity[sh.owner[e]] == e;
    }
    assert HTerms(sh, c, k) == HTerms(sh, c', k);
    assert c.weight == c'.weight ==> LoadTerms(sh, c, k) == LoadTerms(sh, c', k);
  }

  lemma {:induction false} SameFromQueue(sh: Shape, c: Counts, c': Counts, k: nat)
    requires Balanced(sh, c) && Balanced(sh, c') && k <= |sh.entity| && c.throttled == c'.throttled
    requires forall e :: sh.IsEntity(e) && sh.owner[e] == 0 ==> c.on[e] == c'.on[e]
    ensures SameFrom(sh, c, c', k)
    decreases |sh.entity| - k
  {
    hide HTerms, RunningTerms, LoadTerms, EntitiesFollowExcept, Sum;
    if k < |sh.entity| {
      SameFromQueue(sh, c, c', k + 1);
      SameTerms(sh, c, c', k);
    }
  }

  /** Nothing depends on the history of walks: queued tasks and throttled flags determine which
      entities are queued and every count of them; weights as well determine the load sums. */
  lemma BalancedDetermined(sh: Shape, c: Counts, c': Counts)
    requires Balanced(sh, c) && Balanced(sh, c') && c.throttled == c'.throttled
    requires forall e :: sh.IsEntity(e) && sh.owner[e] == 0 ==> c.on[e] == c'.on[e]
    ensures c' == c.(weight := c'.weight, load := c'.load) && (c.weight == c'.weight ==> c == c')
  {
    SameFromQueue(sh, c, c', 0);
  }

  // ---- One level of a bottom-up walk ----

  /** Only queue x is still behind (by d), and its own entity is where it belongs. */
  ghost predicate Ascending(sh: Shape, c: Counts, x: nat, d: int, ex: int) {
    && Fits(sh, c) && LocalExact(sh, c) && sh.IsQueue(x) && x != ex
    && HBehind(sh, c, x, d)
    && EntitiesFollowExcept(sh, c, ex, -1)
    && (c.throttled[x] || c.running[x] > 0)
    && c.rqRunning == c.hRunning[0]
  }

  ghost predicate Settled(sh: Shape, c: Counts, ex: int) {
    Fits(sh, c) && LocalExact(sh, c) && HBehind(sh, c, -1, 0) && EntitiesFollowExcept(sh, c, ex, -1)
  }

  /** The walk is at the entity above queue x, or past the root. */
  ghost predicate Above(sh: Shape, c: Counts, x: nat, d: int, ex: int)
    requires Fits(sh, c) && sh.IsQueue(x)
  {
    if x == 0 then Settled(sh, c, ex) && c.hRunning[0] == c.rqRunning + d
    else if c.on[sh.entity[x]] then Ascending(sh, c, sh.Parent(x), d, ex)
    else Settled(sh, c, ex) && c.hRunning[0] == c.rqRunning
  }

  /** Catching up at queue x moves the gap to its parent, if x counts there. */
  lemma CatchUp(sh: Shape, c: Counts, x: nat, d: int)
    requires Fits(sh, c) && LocalExact(sh, c) && sh.IsQueue(x) && HBehind(sh, c, x, d)
    ensures var c' := AddH(c, x, d);
      && Fits(sh, c') && LocalExact(sh, c')
      && HBehind(sh, c', if x > 0 && c.on[sh.entity[x]] then sh.Parent(x) else -1, d)
      && (forall ex, y :: EntitiesFollowExcept(sh, c, ex, y) ==> EntitiesFollowExcept(sh, c', ex, y))
  {
    var c' := AddH(c, x, d);
    AddHLocal(sh, c, x, d);
    forall q | 0 <= q < |sh.entity|
      ensures Sum(HTerms(sh, c', q)) == c'.hRunning[q]
        + (if x > 0 && c.on[sh.entity[x]] && q == sh.Parent(x) then d else 0)
    {
      AddHEffect(sh, c, x, d, q);
    }
    forall ex, y | EntitiesFollowExcept(sh, c, ex, y)
      ensures EntitiesFollowExcept(sh, c', ex, y)
    {
      forall q | 0 < q < |sh.entity| && q != ex && q != y
        ensures EntityFollows(sh, c', q)
      {
        assert EntityFollows(sh, c, q);
      }
    }
  }

  lemma AscendStep(sh: Shape, c: Counts, x: nat, d: int, ex: int)
    requires Ascending(sh, c, x, d, ex) && (ex >= 0 ==> x < ex)
    ensures Fits(sh, AddH(c, x, d)) && Above(sh, AddH(c, x, d), x, d, ex)
    ensures c.throttled[x] ==> x > 0 && !c.on[sh.entity[x]]
    ensures !c.throttled[x] && x > 0 ==> c.on[sh.entity[x]]
  {
    CatchUp(sh, c, x, d);
    if x > 0 {
      assert EntityFollows(sh, c, x);
      EmptyQueue(sh, AddH(c, x, d), sh.Parent(x));
    }
  }

  /** e is about to be queued on behalf of d newly runnable tasks below it, or already is. */
  ghost predicate Entering(sh: Shape, c: Counts, e: nat, d: int) {
    && Fits(sh, c) && LocalExact(sh, c) && sh.IsEntity(e)
    && HBehind(sh, c, if c.on[e] then sh.queue[e] else -1, d)
    && EntitiesFollowExcept(sh, c, sh.owner[e], -1)
    && (sh.owner[e] > 0 ==> c.running[sh.owner[e]] > 0 && !c.throttled[sh.owner[e]])
    && (!c.on[e] ==> Share(sh, c, e) == d)
    && c.rqRunning == c.hRunning[0]
  }

  function EnqueueEntityCounts(sh: Shape, c: Counts, e: nat, shares: seq<nat>, exhausted: set<nat>): Counts
    requires sh.IsEntity(e) && |c.on| == |sh.queue| == |c.weight| == |shares| == |sh.owner|
    requires sh.queue[e] < |c.running| == |c.load| == |c.throttled|
  {
    var q := sh.queue[e];
    var w := if sh.owner[e] > 0 then shares[e] else c.weight[e];
    var c1 := TurnOn(sh, c.(weight := c.weight[e := w]), e);
    if c1.running[q] == 1 && q in exhausted && !c1.throttled[q]
    then c1.(throttled := c1.throttled[q := true]) else c1
  }

  lemma ReweighOff(sh: Shape, c: Counts, e: nat, w: nat)
    requires Fits(sh, c) && sh.IsEntity(e) && LocalExact(sh, c) && !c.on[e] && w > 0
    ensures var c' := c.(weight := c.weight[e := w]);
      Fits(sh, c') && LocalExact(sh, c') && forall q :: sh.IsQueue(q) ==> HTerms(sh, c', q) == HTerms(sh, c, q)
  {
    var c' := c.(weight := c.weight[e := w]);
    forall q | 0 <= q < |sh.entity|
      ensures RunningTerms(sh, c', q) == RunningTerms(sh, c, q)
      ensures LoadTerms(sh, c', q) == LoadTerms(sh, c, q)
      ensures HTerms(sh, c', q) == HTerms(sh, c, q)
    {
      assert TaskUnits(sh, c') == TaskUnits(sh, c) && QueueUnits(sh, c') == QueueUnits(sh, c);
    }
  }

  lemma ThrottleFlagOnly(sh: Shape, c: Counts, q: nat, b: bool)
    requires Fits(sh, c) && 0 < q < |sh.entity|
    ensures var c' := c.(throttled := c.throttled[q := b]);
      && Fits(sh, c')
      && (LocalExact(sh, c) ==> LocalExact(sh, c'))
      && (forall x :: sh.IsQueue(x) ==> HTerms(sh, c', x) == HTerms(sh, c, x))
  {
    var c' := c.(throttled := c.throttled[q := b]);
    forall x | 0 <= x < |sh.entity|
      ensures RunningTerms(sh, c', x) == RunningTerms(sh, c, x)
      ensures LoadTerms(sh, c', x) == LoadTerms(sh, c, x)
      ensures HTerms(sh, c', x) == HTerms(sh, c, x)
    {
      assert TaskUnits(sh, c') == TaskUnits(sh, c) && QueueUnits(sh, c') == QueueUnits(sh, c);
    }
  }

  /** An entity has just been queued on q, whose h_nr_running and own entity lag behind. */
  ghost predicate Entered(sh: Shape, c: Counts, q: nat, d: int) {
    && Fits(sh, c) && LocalExact(sh, c) && sh.IsQueue(q)
    && HBehind(sh, c, q, d)
    && EntitiesFollowExcept(sh, c, q, -1)
    && c.running[q] > 0
    && (q > 0 && c.throttled[q] ==> !c.on[sh.entity[q]])
    && (q > 0 && !c.throttled[q] && !c.on[sh.entity[q]] ==> c.hRunning[q] == 0)
    && c.rqRunning == c.hRunning[0]
  }

  lemma SwitchFollows(sh: Shape, c: Counts, c': Counts, e: nat, x: nat)
    requires Fits(sh, c) && sh.IsEntity(e) && 0 < x < |sh.entity| && EntityFollows(sh, c, x)
    requires c' == if c.on[e] then TurnOff(sh, c, e) else TurnOn(sh, c, e)
    requires x != sh.owner[e] && x != sh.queue[e]
    ensures Fits(sh, c') && EntityFollows(sh, c', x)
  {
    assert sh.entity[x] != e;
  }

  lemma EnterOn(sh: Shape, c: Counts, c': Counts, e: nat, d: int)
    requires Entering(sh, c, e, d) && !c.on[e] && c' == TurnOn(sh, c, e)
    ensures Entered(sh, c', sh.queue[e], d)
  {
    var q := sh.queue[e];
    SwitchLocal(sh, c, c', e);
    forall x | 0 <= x < |sh.entity|
      ensures Sum(HTerms(sh, c', x)) == c'.hRunning[x] + (if x == q then d else 0)
    {
      SwitchH(sh, c, c', e, x);
    }
    EmptyQueue(sh, c, q);
    forall x | 0 < x < |sh.entity| && x != q
      ensures EntityFollows(sh, c', x)
    {
      if x != sh.owner[e] {
        assert EntityFollows(sh, c, x);
        SwitchFollows(sh, c, c', e, x);
      }
    }
    if q > 0 {
      assert EntityFollows(sh, c, q);
      assert sh.entity[q] != e;
    }
  }

  /** Throttling a queue whose entity is not queued leaves it in place. */
  lemma EnterThrottled(sh: Shape, c: Counts, q: nat, d: int, flag: bool)
    requires Entered(sh, c, q, d) && q > 0
    requires if flag then !c.on[sh.entity[q]] else c.throttled[q]
    ensures var c' := if flag then c.(throttled := c.throttled[q := true]) else c;
      Ascending(sh, c', q, d, -1)
  {
    var c' := if flag then c.(throttled := c.throttled[q := true]) else c;
    if flag { ThrottleFlagOnly(sh, c, q, true); }
    forall x | 0 < x < |sh.entity|
      ensures EntityFollows(sh, c', x)
    {
      if x != q { assert EntityFollows(sh, c, x); }
    }
  }

  lemma EnterUp(sh: Shape, c: Counts, q: nat, d: int)
    requires Entered(sh, c, q, d) && !c.throttled[q]
    ensures Fits(sh, AddH(c, q, d))
    ensures q == 0 ==> Above(sh, AddH(c, q, d), 0, d, -1)
    ensures q > 0 ==> Entering(sh, AddH(c, q, d), sh.entity[q], d)
  {
    CatchUp(sh, c, q, d);
    if q == 0 { assert EntitiesFollowExcept(sh, c, -1, -1); }
  }

  lemma EnterStep(sh: Shape, c: Counts, e: nat, d: int, shares: seq<nat>, exhausted: set<nat>)
    requires Entering(sh, c, e, d) && !c.on[e]
    requires |shares| == |sh.queue| && (forall i :: 0 <= i < |shares| ==> shares[i] > 0) && 0 !in exhausted
    ensures var c1 := EnqueueEntityCounts(sh, c, e, shares, exhausted); var q := sh.queue[e];
      && Fits(sh, c1)
      && (c1.throttled[q] ==> Ascending(sh, c1, q, d, -1))
      && (!c1.throttled[q] ==> Entered(sh, c1, q, d))
  {
    var q := sh.queue[e];
    var w := if sh.owner[e] > 0 then shares[e] else c.weight[e];
    var c0 := c.(weight := c.weight[e := w]);
    ReweighOff(sh, c, e, w);
    assert Entering(sh, c0, e, d) by {
      forall x | 0 < x < |sh.entity| && x != sh.owner[e]
        ensures EntityFollows(sh, c0, x)
      {
        assert EntityFollows(sh, c, x);
      }
    }
    var cOn := TurnOn(sh, c0, e);
    EnterOn(sh, c0, cOn, e, d);
    if q > 0 {
      assert EntityFollows(sh, c, q);
      EmptyQueue(sh, c, q);
      if cOn.running[q] == 1 && q in exhausted && !cOn.throttled[q] {
        EnterThrottled(sh, cOn, q, d, true);
      } else if cOn.throttled[q] {
        EnterThrottled(sh, cOn, q, d, false);
      }
    }
  }

  /** e leaves on behalf of d tasks below it that stop being runnable. */
  ghost predicate Leaving(sh: Shape, c: Counts, e: nat, d: int, ex: int) {
    && Fits(sh, c) && LocalExact(sh, c) && sh.IsEntity(e) && c.on[e]
    && HBehind(sh, c, sh.queue[e], Share(sh, c, e) - d)
    && EntitiesFollowExcept(sh, c, sh.owner[e], ex)
    && (sh.owner[e] > 0 && sh.owner[e] != ex ==> c.running[sh.owner[e]] == 0)
    && c.rqRunning == c.hRunning[0]
  }

  /** An entity has just left q, whose h_nr_running and perhaps own entity lag behind. */
  ghost predicate Left(sh: Shape, c: Counts, q: nat, d: int, ex: int) {
    && Fits(sh, c) && LocalExact(sh, c) && sh.IsQueue(q)
    && HBehind(sh, c, q, -d)
    && EntitiesFollowExcept(sh, c, if c.load[q] == 0 then q else -1, ex)
    && (q > 0 ==> (c.on[sh.entity[q]] <==> !c.throttled[q]))
    && (c.load[q] == 0 <==> c.running[q] == 0)
    && c.running[q] >= 0
    && c.rqRunning == c.hRunning[0]
  }

  lemma LeaveOff(sh: Shape, c: Counts, c': Counts, e: nat, d: int, ex: int)
    requires Leaving(sh, c, e, d, ex) && (ex >= 0 ==> sh.queue[e] < ex) && c' == TurnOff(sh, c, e)
    ensures Left(sh, c', sh.queue[e], d, ex)
  {
    var q := sh.queue[e];
    SwitchLocal(sh, c, c', e);
    forall x | 0 <= x < |sh.entity|
      ensures Sum(HTerms(sh, c', x)) == c'.hRunning[x] + (if x == q then -d else 0)
    {
      SwitchH(sh, c, c', e, x);
    }
    EmptyQueue(sh, c, q);
    EmptyQueue(sh, c', q);
    forall x | 0 < x < |sh.entity| && x != q && x != ex
      ensures EntityFollows(sh, c', x)
    {
      if x != sh.owner[e] {
        assert EntityFollows(sh, c, x);
        SwitchFollows(sh, c, c', e, x);
      }
    }
    if q > 0 {
      assert EntityFollows(sh, c, q);
      assert sh.entity[q] != e;
    }
  }

  /** Above a queue that something left: either it still holds entities, or its entity leaves too. */
  lemma LeaveUp(sh: Shape, c: Counts, q: nat, d: int, ex: int)
    requires Left(sh, c, q, d, ex) && (ex >= 0 ==> q < ex)
    ensures var c' := AddH(c, q, -d);
      && Fits(sh, c')
      && (c.load[q] != 0 || q == 0 || c.throttled[q] ==> Above(sh, c', q, -d, ex))
      && (c.load[q] == 0 && q > 0 && !c.throttled[q] ==> Leaving(sh, c', sh.entity[q], d, ex))
  {
    var c' := AddH(c, q, -d);
    CatchUp(sh, c, q, -d);
    EmptyQueue(sh, c', q);
    if q > 0 { EmptyQueue(sh, c', sh.Parent(q)); }
    if c.load[q] == 0 && q == 0 {
      assert EntitiesFollowExcept(sh, c, -1, ex);
    }
    if c.load[q] == 0 && q > 0 && c.throttled[q] {
      assert EntityFollows(sh, c, q);
      assert EntitiesFollowExcept(sh, c, -1, ex);
    }
  }

  lemma LeftThrottled(sh: Shape, c: Counts, q: nat, d: int)
    requires Left(sh, c, q, d, -1) && c.throttled[q]
    ensures Ascending(sh, c, q, -d, -1)
  {
    assert EntityFollows(sh, c, q);
    assert EntitiesFollowExcept(sh, c, -1, -1);
  }

  /** Tasks other than t stay queued or off, all tasks keep their weight, flags are unchanged. */
  ghost predicate SameTasksBut(sh: Shape, c0: Counts, c: Counts, t: int)
    requires sh.WellFormed() && |c0.on| == |c0.weight| == |c.on| == |c.weight| == |sh.queue|
  {
    forall e :: sh.IsEntity(e) && sh.owner[e] == 0 ==>
      c.weight[e] == c0.weight[e] && (e != t ==> c.on[e] == c0.on[e])
  }

  function ParentEntity(sh: Shape, q: nat): int
    requires sh.WellFormed() && sh.IsQueue(q)
  {
    if q == 0 then NoEntity else sh.entity[q]
  }

  /** Between two levels of throttle_cfs_rq(a), with the next entity se and delta tasks to remove. */
  ghost predicate ThrottleWalk(sh: Shape, c: Counts, se: int, delta: int, a: nat, dequeue: bool) {
    && Fits(sh, c)
    && 0 < a < |sh.entity|
    && (se == NoEntity || (sh.IsEntity(se) && sh.queue[se] < a && sh.owner[se] > 0))
    && (se == sh.entity[a] || !c.on[sh.entity[a]])
    && if se == NoEntity then Settled(sh, c, a) && c.hRunning[0] == c.rqRunning - delta
       else if !c.on[se] then Settled(sh, c, a) && c.hRunning[0] == c.rqRunning
       else if dequeue then Leaving(sh, c, se, delta, a)
       else Ascending(sh, c, sh.queue[se], -delta, a)
  }

  lemma ThrottleStart(sh: Shape, c: Counts, a: nat)
    requires Balanced(sh, c) && 0 < a < |sh.entity| && c.on[sh.entity[a]]
    ensures ThrottleWalk(sh, c, sh.entity[a], c.hRunning[a], a, true)
  {
  }

  lemma ThrottleLevel(sh: Shape, c: Counts, se: nat, delta: int, a: nat, dequeue: bool)
    requires ThrottleWalk(sh, c, se, delta, a, dequeue) && sh.IsEntity(se) && c.on[se]
    requires dequeue || se != sh.entity[a]
    ensures var c1 := if dequeue then TurnOff(sh, c, se) else c; var q := sh.queue[se]; var c2 := AddH(c1, q, -delta);
      && ThrottleWalk(sh, c2, ParentEntity(sh, q), delta, a, dequeue && c2.load[q] == 0)
      && ParentEntity(sh, q) != sh.entity[a]
      && c2.throttled == c.throttled && c2.weight == c.weight && c2.rqRunning == c.rqRunning
      && (sh.owner[se] > 0 ==> SameTasksBut(sh, c, c2, NoEntity))
  {
    hide HBehind, LocalExact, EntitiesFollowExcept;
    var q := sh.queue[se];
    if dequeue {
      LeaveOff(sh, c, TurnOff(sh, c, se), se, delta, a);
      LeaveUp(sh, TurnOff(sh, c, se), q, delta, a);
    } else {
      AscendStep(sh, c, q, -delta, a);
    }
  }

  /** The last assignment to rq->nr_running, made only past the root, balances everything. */
  lemma RqDone(sh: Shape, c: Counts, ex: int)
    requires Settled(sh, c, ex)
    ensures var c' := c.(rqRunning := c.hRunning[0]); Settled(sh, c', ex) && (ex < 0 ==> Balanced(sh, c'))
  {
    var c' := c.(rqRunning := c.hRunning[0]);
    forall q | 0 <= q < |sh.entity|
      ensures RunningTerms(sh, c', q) == RunningTerms(sh, c, q)
      ensures LoadTerms(sh, c', q) == LoadTerms(sh, c, q)
      ensures HTerms(sh, c', q) == HTerms(sh, c, q)
      ensures q > 0 && q != ex ==> EntityFollows(sh, c', q)
    {
      assert TaskUnits(sh, c') == TaskUnits(sh, c) && QueueUnits(sh, c') == QueueUnits(sh, c);
      if q > 0 && q != ex { assert EntityFollows(sh, c, q); }
    }
  }

  lemma ThrottleDone(sh: Shape, c: Counts, a: nat)
    requires Settled(sh, c, a) && 0 < a < |sh.entity| && !c.on[sh.entity[a]]
    ensures Balanced(sh, c.(throttled := c.throttled[a := true], rqRunning := c.hRunning[0]))
  {
    RqDone(sh, c, a);
    var c0 := c.(rqRunning := c.hRunning[0]);
    var c' := c0.(throttled := c.throttled[a := true]);
    ThrottleFlagOnly(sh, c0, a, true);
    forall q | 0 < q < |sh.entity|
      ensures EntityFollows(sh, c', q)
    {
      if q != a { assert EntityFollows(sh, c0, q); }
    }
  }

  // ---- Whole walks over values ----

  lemma EnterStart(sh: Shape, c: Counts, t: nat)
    requires Balanced(sh, c) && sh.IsEntity(t) && sh.owner[t] == 0 && !c.on[t]
    ensures Entering(sh, c, t, 1)
  {
  }

  /** A queued entity at which an enqueue walk arrives: from here only counts change. */
  lemma EnterMeets(sh: Shape, c: Counts, e: nat, d: int)
    requires Entering(sh, c, e, d) && c.on[e]
    ensures Ascending(sh, c, sh.queue[e], d, -1)
  {
    EmptyQueue(sh, c, sh.queue[e]);
    forall q | 0 < q < |sh.entity|
      ensures EntityFollows(sh, c, q)
    {
      if q == sh.owner[e] {} else { assert EntitiesFollowExcept(sh, c, sh.owner[e], -1); }
    }
  }

  lemma LeaveStart(sh: Shape, c: Counts, t: nat)
    requires Balanced(sh, c) && sh.IsEntity(t) && sh.owner[t] == 0 && c.on[t]
    ensures Leaving(sh, c, t, 1, -1)
  {
  }

  /** Clearing the flag of a throttled queue: nothing to do if it is empty, else its entity enters. */
  lemma UnthrottleStart(sh: Shape, c: Counts, a: nat)
    requires Balanced(sh, c) && 0 < a < |sh.entity| && c.throttled[a]
    ensures var c' := c.(throttled := c.throttled[a := false]);
      && Fits(sh, c')
      && (c.load[a] == 0 ==> Balanced(sh, c'))
      && (c.load[a] != 0 ==> Entering(sh, c', sh.entity[a], c.hRunning[a]))
  {
    var c' := c.(throttled := c.throttled[a := false]);
    ThrottleFlagOnly(sh, c, a, false);
    EmptyQueue(sh, c, a);
    assert EntityFollows(sh, c, a);
    forall q | 0 < q < |sh.entity| && q != a
      ensures EntityFollows(sh, c', q)
    {
      assert EntityFollows(sh, c, q);
    }
    if c.load[a] == 0 { assert EntityFollows(sh, c', a); }
  }

  /** Reweighing keeps the state of a walk that only adjusts counts. */
  lemma AboveReweighed(sh: Shape, c: Counts, c': Counts, x: nat, d: int)
    requires Fits(sh, c) && Fits(sh, c') && sh.IsQueue(x) && Above(sh, c, x, d, -1)
    requires c' == c.(weight := c'.weight, load := c'.load) && LocalExact(sh, c')
    requires forall q :: sh.IsQueue(q) ==> HTerms(sh, c', q) == HTerms(sh, c, q)
    ensures Above(sh, c', x, d, -1)
  {
    forall q | 0 < q < |sh.entity|
      ensures EntityFollows(sh, c', q) == EntityFollows(sh, c, q)
    {
    }
    if x == 0 || !c.on[sh.entity[x]] {
      assert Settled(sh, c, -1);
      forall q | 0 < q < |sh.entity|
        ensures EntityFollows(sh, c', q)
      {
        assert EntityFollows(sh, c, q);
      }
    } else {
      assert Ascending(sh, c, sh.Parent(x), d, -1);
      forall q | 0 < q < |sh.entity|
        ensures EntityFollows(sh, c', q)
      {
        assert EntityFollows(sh, c, q);
      }
    }
  }

  lemma AboveDone(sh: Shape, c: Counts, x: nat, d: int)
    requires Fits(sh, c) && sh.IsQueue(x) && Above(sh, c, x, d, -1)
    ensures x == 0 ==> Balanced(sh, c.(rqRunning := c.rqRunning + d))
    ensures x > 0 && !c.on[sh.entity[x]] ==> Balanced(sh, c)
  {
    if x == 0 { RqDone(sh, c, -1); }
  }

  /** What a walk that started in c0 with task t may have changed: only t is switched, only
      group entities are reweighed, and exactly the exhausted queues that stopped being empty
      are newly throttled. */
  ghost predicate Progress(sh: Shape, c0: Counts, c: Counts, t: int, exhausted: set<nat>) {
    && Fits(sh, c0) && Fits(sh, c)
    && SameTasksBut(sh, c0, c, t)
    && (forall q :: sh.IsQueue(q) ==>
          (c.throttled[q] <==> c0.throttled[q] || (q in exhausted && c0.running[q] == 0 && c.running[q] > 0)))
  }

  /** Dequeuing a task undoes enqueuing it, up to the weights of group entities and what they add
      to the loads, exactly when enqueuing it throttled no queue. */
  lemma DequeueUndoesEnqueue(sh: Shape, c0: Counts, c1: Counts, c2: Counts, t: nat, exhausted: set<nat>)
    requires Balanced(sh, c0) && Balanced(sh, c1) && Balanced(sh, c2) && sh.IsEntity(t) && sh.owner[t] == 0
    requires Progress(sh, c0, c1, t, exhausted) && Progress(sh, c1, c2, t, {}) && !c0.on[t] && !c2.on[t]
    ensures c2 == c0.(weight := c2.weight, load := c2.load) <==>
      forall q :: sh.IsQueue(q) && q in exhausted && c1.running[q] > 0 ==> c0.throttled[q] || c0.running[q] > 0
    ensures forall e :: sh.IsEntity(e) && sh.owner[e] == 0 ==> c2.weight[e] == c0.weight[e]
  {
    hide LocalExact, HBehind, EntitiesFollowExcept;
    assert c2.throttled == c1.throttled;
    if forall q :: sh.IsQueue(q) && q in exhausted && c1.running[q] > 0 ==> c0.throttled[q] || c0.running[q] > 0 {
      forall q | sh.IsQueue(q) ensures c1.throttled[q] == c0.throttled[q] { NoneRunning(sh, c0, q); }
      assert c1.throttled == c0.throttled;
      BalancedDetermined(sh, c0, c2);
    } else {
      var q :| sh.IsQueue(q) && q in exhausted && c1.running[q] > 0 && !c0.throttled[q] && c0.running[q] <= 0;
      NoneRunning(sh, c0, q);
    }
  }

  lemma NoneRunning(sh: Shape, c: Counts, q: nat)
    requires Balanced(sh, c) && sh.IsQueue(q)
    ensures c.running[q] >= 0
  {
    hide LocalExact, HBehind, EntitiesFollowExcept;
    EmptyQueue(sh, c, q);
  }

  /** Queues 0..q are still as in c0. */
  ghost predicate UntouchedUpTo(sh: Shape, c0: Counts, c: Counts, q: nat)
    requires Fits(sh, c0) && Fits(sh, c)
  {
    forall x :: 0 <= x <= q && x < |sh.entity| ==> c.running[x] == c0.running[x] && c.throttled[x] == c0.throttled[x]
  }

  /** Between two levels of an enqueue walk at entity se: what changed lies strictly below. */
  ghost predicate EnterWalk(sh: Shape, c0: Counts, c: Counts, se: int, d: int, t: int, exhausted: set<nat>) {
    && Progress(sh, c0, c, t, exhausted)
    && (if se == NoEntity then Above(sh, c, 0, d, -1)
        else sh.IsEntity(se) && Entering(sh, c, se, d) && UntouchedUpTo(sh, c0, c, sh.queue[se])
             && (se == t || sh.owner[se] > 0))
    && (se != t && sh.IsEntity(t) ==> c.on[t])
  }

  /** As EnterWalk, once only counts remain to be adjusted. */
  ghost predicate CountWalk(sh: Shape, c0: Counts, c: Counts, se: int, d: int, t: int, exhausted: set<nat>) {
    && Progress(sh, c0, c, t, exhausted)
    && (if se == NoEntity then Above(sh, c, 0, d, -1)
        else sh.IsEntity(se) && Ascending(sh, c, sh.queue[se], d, -1))
  }

  /** An empty queue's own entity is off, and no queue counts less than nothing. */
  lemma EnterFrom(sh: Shape, c: Counts, e: nat, d: int)
    requires Entering(sh, c, e, d) && !c.on[e]
    ensures var q := sh.queue[e]; c.running[q] >= 0 && (q > 0 && c.running[q] == 0 ==> !c.on[sh.entity[q]])
  {
    hide HBehind;
    var q := sh.queue[e];
    if q > 0 { assert EntityFollows(sh, c, q); }
    EmptyQueue(sh, c, q);
  }

  lemma EnterProgress(sh: Shape, c0: Counts, c: Counts, se: nat, d: int, t: int, shares: seq<nat>, exhausted: set<nat>)
    requires EnterWalk(sh, c0, c, se, d, t, exhausted) && sh.IsEntity(se) && !c.on[se]
    requires |shares| == |sh.queue| && (forall i :: 0 <= i < |shares| ==> shares[i] > 0) && 0 !in exhausted
    ensures var c1 := EnqueueEntityCounts(sh, c, se, shares, exhausted); var q := sh.queue[se];
      && Progress(sh, c0, c1, t, exhausted)
      && (q > 0 ==> UntouchedUpTo(sh, c0, c1, sh.Parent(q)))
      && c1.on[se] && (sh.IsEntity(t) ==> c1.on[t])
      && (q > 0 && c.running[q] == 0 ==> !c.on[sh.entity[q]])
  {
    EnterFrom(sh, c, se, d);
    hide Entering, HBehind, LocalExact, EntitiesFollowExcept;
  }

  lemma EnterLevel(sh: Shape, c0: Counts, c: Counts, se: nat, d: int, t: int, shares: seq<nat>, exhausted: set<nat>)
    requires EnterWalk(sh, c0, c, se, d, t, exhausted) && sh.IsEntity(se) && !c.on[se]
    requires |shares| == |sh.queue| && (forall i :: 0 <= i < |shares| ==> shares[i] > 0) && 0 !in exhausted
    ensures var c1 := EnqueueEntityCounts(sh, c, se, shares, exhausted); var q := sh.queue[se];
      && Fits(sh, c1) && c1.hRunning == c.hRunning
      && (q > 0 && c.running[q] == 0 ==> !c.on[sh.entity[q]])
      && (c1.throttled[q] ==> CountWalk(sh, c0, c1, se, d, t, exhausted))
      && (!c1.throttled[q] ==> EnterWalk(sh, c0, AddH(c1, q, d), ParentEntity(sh, q), d, t, exhausted))
      && LocalExact(sh, c) && (sh.IsEntity(t) ==> c1.on[t])
  {
    hide HBehind, LocalExact, EntitiesFollowExcept;
    var q := sh.queue[se];
    var c1 := EnqueueEntityCounts(sh, c, se, shares, exhausted);
    EnterProgress(sh, c0, c, se, d, t, shares, exhausted);
    EnterStep(sh, c, se, d, shares, exhausted);
    if !c1.throttled[q] {
      EnterUp(sh, c1, q, d);
      assert Progress(sh, c0, AddH(c1, q, d), t, exhausted);
    }
  }

  lemma EnterWalkMeets(sh: Shape, c0: Counts, c: Counts, se: nat, d: int, t: int, exhausted: set<nat>)
    requires EnterWalk(sh, c0, c, se, d, t, exhausted) && sh.IsEntity(se) && c.on[se]
    ensures CountWalk(sh, c0, c, se, d, t, exhausted)
  {
    hide HBehind, LocalExact, EntitiesFollowExcept;
    EnterMeets(sh, c, se, d);
  }

  /** One level of the loops that only adjust counts; c2 is the state after reweighing. */
  lemma CountLevel(sh: Shape, c0: Counts, c: Counts, c2: Counts, se: nat, d: int, t: int, exhausted: set<nat>)
    requires CountWalk(sh, c0, c, se, d, t, exhausted) && sh.IsEntity(se)
    requires var q := sh.queue[se]; var c1 := AddH(c, q, d);
      && Fits(sh, c2) && LocalExact(sh, c2)
      && c2 == c1.(weight := c2.weight, load := c2.load)
      && (forall e :: sh.IsEntity(e) && sh.owner[e] == 0 ==> c2.weight[e] == c.weight[e])
      && Fits(sh, c1) && (forall x :: sh.IsQueue(x) ==> HTerms(sh, c2, x) == HTerms(sh, c1, x))
    ensures Progress(sh, c0, c2, t, exhausted)
    ensures c.throttled[sh.queue[se]] ==> Balanced(sh, AddH(c, sh.queue[se], d))
    ensures !c.throttled[sh.queue[se]] ==> CountWalk(sh, c0, c2, ParentEntity(sh, sh.queue[se]), d, t, exhausted)
  {
    hide HBehind, LocalExact, EntitiesFollowExcept;
    var q := sh.queue[se];
    AscendStep(sh, c, q, d, -1);
    AboveDone(sh, AddH(c, q, d), q, d);
    AboveReweighed(sh, AddH(c, q, d), c2, q, d);
  }

  /** Between two levels of the first loop of dequeue_task_fair(t). */
  ghost predicate LeaveWalk(sh: Shape, c0: Counts, c: Counts, se: int, t: nat) {
    && Progress(sh, c0, c, t, {})
    && (if se == NoEntity then Above(sh, c, 0, -1, -1) else sh.IsEntity(se) && Leaving(sh, c, se, 1, -1))
    && (se == t || sh.IsEntity(se) ==> se == t || sh.owner[se] > 0)
    && sh.IsEntity(t) && (se != t ==> !c.on[t])
  }

  lemma LeaveLevel(sh: Shape, c0: Counts, c: Counts, se: nat, t: nat)
    requires LeaveWalk(sh, c0, c, se, t) && sh.IsEntity(se)
    ensures var c1 := TurnOff(sh, c, se); var q := sh.queue[se]; var c2 := AddH(c1, q, -1);
      && Fits(sh, c1) && c.on[se] && !c1.on[t]
      && (c1.throttled[q] ==> CountWalk(sh, c0, c1, se, -1, t, {}))
      && (!c1.throttled[q] && c1.load[q] != 0 ==> CountWalk(sh, c0, c2, ParentEntity(sh, q), -1, t, {}))
      && (!c1.throttled[q] && c1.load[q] == 0 ==> LeaveWalk(sh, c0, c2, ParentEntity(sh, q), t))
  {
    hide HBehind, LocalExact, EntitiesFollowExcept;
    var q := sh.queue[se];
    var c1 := TurnOff(sh, c, se);
    LeaveOff(sh, c, c1, se, 1, -1);
    if c1.throttled[q] { LeftThrottled(sh, c1, q, 1); } else { LeaveUp(sh, c1, q, 1, -1); }
  }

  /** One level of unthrottle_cfs_rq: queue the entity if it is off, then add the tasks below. */
  lemma RestoreLevel(sh: Shape, c0: Counts, c: Counts, se: nat, d: int, enqueue: bool, shares: seq<nat>,
                     exhausted: set<nat>)
    requires sh.WellFormed() && sh.IsEntity(se) && sh.owner[se] > 0
    requires if enqueue then EnterWalk(sh, c0, c, se, d, NoEntity, exhausted) && !c.on[se]
             else CountWalk(sh, c0, c, se, d, NoEntity, exhausted)
    requires |shares| == |sh.queue| && (forall i :: 0 <= i < |shares| ==> shares[i] > 0) && 0 !in exhausted
    ensures Fits(sh, c)
    ensures var q := sh.queue[se];
      var c1 := if enqueue then EnqueueEntityCounts(sh, c, se, shares, exhausted) else c;
      var c2 := AddH(c1, q, d);
      && (enqueue ==> LocalExact(sh, c) && (q > 0 && c.running[q] == 0 ==> !c.on[sh.entity[q]]))
      && Progress(sh, c0, c2, NoEntity, exhausted)
      && (c1.throttled[q] ==> Balanced(sh, c2))
      && (!c1.throttled[q] && enqueue ==> EnterWalk(sh, c0, c2, ParentEntity(sh, q), d, NoEntity, exhausted))
      && (!c1.throttled[q] && !enqueue ==> CountWalk(sh, c0, c2, ParentEntity(sh, q), d, NoEntity, exhausted))
  {
    hide HBehind, LocalExact, EntitiesFollowExcept, SameTasksBut, Above, Entering, Ascending;
    var q := sh.queue[se];
    var c1 := c;
    if enqueue {
      EnterLevel(sh, c0, c, se, d, NoEntity, shares, exhausted);
      c1 := EnqueueEntityCounts(sh, c, se, shares, exhausted);
    }
    if c1.throttled[q] || !enqueue {
      CountStep(sh, c0, c1, se, d, NoEntity, exhausted);
    }
  }

  lemma CountStep(sh: Shape, c0: Counts, c: Counts, se: nat, d: int, t: int, exhausted: set<nat>)
    requires CountWalk(sh, c0, c, se, d, t, exhausted) && sh.IsEntity(se)
    ensures var q := sh.queue[se]; var c1 := AddH(c, q, d);
      && Progress(sh, c0, c1, t, exhausted)
      && (c.throttled[q] ==> Balanced(sh, c1))
      && (!c.throttled[q] ==> CountWalk(sh, c0, c1, ParentEntity(sh, q), d, t, exhausted))
  {
    hide HBehind, LocalExact, EntitiesFollowExcept;
    CatchUp(sh, c, sh.queue[se], d);
    CountLevel(sh, c0, c, AddH(c, sh.queue[se], d), se, d, t, exhausted);
  }

  /** Reweighing a queued or unqueued entity keeps the whole hierarchy balanced. */
  lemma ReweighedBalanced(sh: Shape, c: Counts, c': Counts)
    requires Balanced(sh, c) && Fits(sh, c') && LocalExact(sh, c')
    requires c' == c.(weight := c'.weight, load := c'.load)
    ensures Balanced(sh, c')
  {
    forall q | 0 <= q < |sh.entity|
      ensures HTerms(sh, c', q) == HTerms(sh, c, q)
      ensures q > 0 ==> EntityFollows(sh, c', q)
    {
      assert TaskUnits(sh, c') == TaskUnits(sh, c) && QueueUnits(sh, c') == QueueUnits(sh, c);
      if q > 0 { assert EntityFollows(sh, c, q); }
    }
  }

  // ---- Buddies ----

  ghost predicate IsBuddy(sh: Shape, on: seq<bool>, q: nat, b: int)
    requires |on| == |sh.queue| == |sh.owner|
  {
    b == NoEntity || (sh.IsEntity(b) && sh.queue[b] == q && on[b])
  }

  ghost predicate BuddiesOn(sh: Shape, on: seq<bool>, buddy: seq<int>) {
    && sh.WellFormed() && |on| == |sh.queue| && |buddy| == |sh.entity|
    && forall q :: 0 <= q < |buddy| ==> IsBuddy(sh, on, q, buddy[q])
  }

  lemma BuddiesStay(sh: Shape, on: seq<bool>, on': seq<bool>, buddy: seq<int>)
    requires BuddiesOn(sh, on, buddy) && |on'| == |on|
    requires forall e :: 0 <= e < |on| && on[e] && (buddy[sh.queue[e]] == e) ==> on'[e]
    ensures BuddiesOn(sh, on', buddy)
  {
    forall q | 0 <= q < |buddy|
      ensures IsBuddy(sh, on', q, buddy[q])
    {
      assert IsBuddy(sh, on, q, buddy[q]);
    }
  }

  // ---- Trees ----

  /** The queued entities of queue q, as one queue by itself sees them. */
  function OnQueue(sh: Shape, on: seq<bool>, q: nat): (r: seq<bool>)
    requires |on| == |sh.queue|
    ensures |r| == |on|
  {
    seq(|on|, e requires 0 <= e < |on| => on[e] && sh.queue[e] == q)
  }

  /** The tree of every queue holds exactly its queued entities but the current one. */
  ghost predicate TreesHold(sh: Shape, on: seq<bool>, curr: seq<int>, tree: seq<set<nat>>) {
    && sh.WellFormed() && |on| == |sh.queue| && |curr| == |tree| == |sh.entity|
    && forall q, e: nat :: 0 <= q < |tree| ==>
         (e in tree[q] <==> e < |on| && OnQueue(sh, on, q)[e] && e != curr[q])
  }

  /** In and out of the tree, unless it is the current entity. */
  lemma SwitchTree(sh: Shape, on: seq<bool>, curr: seq<int>, tree: seq<set<nat>>, e: nat, b: bool)
    requires TreesHold(sh, on, curr, tree) && e < |on|
    ensures sh.queue[e] < |tree| == |curr|
    ensures var q := sh.queue[e];
      TreesHold(sh, on[e := b], curr,
                tree[q := if curr[q] == e then tree[q] else if b then tree[q] + {e} else tree[q] - {e}])
  {
  }

  /** What one queue's tree in order holds, seen by itself, is what the hierarchy says it holds. */
  lemma OrderedTree(sh: Shape, on: seq<bool>, curr: seq<int>, tree: seq<set<nat>>, q: nat, s: seq<nat>)
    requires TreesHold(sh, on, curr, tree) && sh.IsQueue(q)
    requires Timeline.Holds(s, OnQueue(sh, on, q), curr[q])
    ensures forall e :: e in tree[q] <==> e in s
  {
    assert forall i :: 0 <= i < |s| ==> s[i] < |on|;
  }
}
