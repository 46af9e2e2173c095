/** The task-group hierarchy on one cpu. Queues (the cfs_rq of each group) are numbered
    in creation order, so a parent has a smaller number than its child and queue 0 is the
    root. Entities are tasks (owner 0) or group entities, which own the queue `owner[e]`. */
module GroupTree {
  import opened Sums

  datatype Shape = Shape(queue: seq<nat>, owner: seq<nat>, entity: seq<nat>)
  {
    predicate WellFormed() {
      && |queue| == |owner|
      && |entity| > 0
      && (forall e :: 0 <= e < |queue| ==> queue[e] < |entity| && owner[e] < |entity|)
      && (forall e :: 0 <= e < |queue| && owner[e] > 0 ==> entity[owner[e]] == e && queue[e] < owner[e])
      && (forall q :: 0 < q < |entity| ==> entity[q] < |queue| && owner[entity[q]] == q)
    }

    predicate IsQueue(q: int) { 0 <= q < |entity| }

    predicate IsEntity(e: int) { 0 <= e < |queue| }

    /** The queue of the parent group. */
    function Parent(q: nat): nat
      requires WellFormed() && 0 < q < |entity|
      ensures Parent(q) < q
    {
      queue[entity[q]]
    }

    /** Is queue `a` the queue `q` or one of its ancestors? */
    predicate IsAncestorOrSelf(a: nat, q: nat)
      requires WellFormed() && IsQueue(q)
      decreases q
    {
      a == q || (q > 0 && IsAncestorOrSelf(a, Parent(q)))
    }
  }

  /** Terms of queue q when each task e contributes v[e] and each child queue c contributes n[c]. */
  ghost function Terms(sh: Shape, v: seq<int>, n: seq<int>, q: nat): (r: seq<int>)
    requires sh.WellFormed() && |v| == |sh.queue| && |n| == |sh.entity|
    ensures |r| == |sh.queue|
  {
    seq(|sh.queue|, e requires 0 <= e < |sh.queue| =>
      if sh.queue[e] != q then 0 else if sh.owner[e] == 0 then v[e] else n[sh.owner[e]])
  }

  ghost function TaskTerms(sh: Shape, v: seq<int>): (r: seq<int>)
    requires sh.WellFormed() && |v| == |sh.queue|
    ensures |r| == |sh.queue|
  {
    seq(|sh.queue|, e requires 0 <= e < |sh.queue| => if sh.owner[e] == 0 then v[e] else 0)
  }

  /** Queues below k are expanded into their entities, the others still count as a whole. */
  ghost function Frontier(sh: Shape, v: seq<int>, n: seq<int>, k: nat): (r: seq<int>)
    requires sh.WellFormed() && |v| == |sh.queue| && |n| == |sh.entity|
    ensures |r| == |sh.queue|
  {
    seq(|sh.queue|, e requires 0 <= e < |sh.queue| =>
      if sh.queue[e] >= k then 0
      else if sh.owner[e] == 0 then v[e]
      else if sh.owner[e] >= k then n[sh.owner[e]] else 0)
  }

  lemma ExpandOne(sh: Shape, v: seq<int>, n: seq<int>, k: nat)
    requires sh.WellFormed() && |v| == |sh.queue| && |n| == |sh.entity|
    requires 0 < k < |sh.entity|
    ensures Sum(Frontier(sh, v, n, k + 1)) == Sum(Frontier(sh, v, n, k)) - n[k] + Sum(Terms(sh, v, n, k))
  {
    var f := Frontier(sh, v, n, k);
    var e := sh.entity[k];
    assert f[e] == n[k];
    SumUpdate(f, e, 0);
    SumPointwise(f[e := 0], Terms(sh, v, n, k), Frontier(sh, v, n, k + 1));
  }

  /** Local balance in every queue gives global balance between the root and the tasks. */
  lemma {:induction false} ExpandTo(sh: Shape, v: seq<int>, n: seq<int>, k: nat)
    requires sh.WellFormed() && |v| == |sh.queue| && |n| == |sh.entity|
    requires 0 < k <= |sh.entity|
    ensures (forall q :: 0 <= q < |sh.entity| ==> Sum(Terms(sh, v, n, q)) <= n[q])
            ==> Sum(Frontier(sh, v, n, k)) <= n[0]
    ensures (forall q :: 0 <= q < |sh.entity| ==> Sum(Terms(sh, v, n, q)) == n[q])
            ==> Sum(Frontier(sh, v, n, k)) == n[0]
  {
    if k == 1 {
      assert Frontier(sh, v, n, 1) == Terms(sh, v, n, 0);
    } else {
      ExpandTo(sh, v, n, k - 1);
      ExpandOne(sh, v, n, k - 1);
    }
  }

  lemma ExpandAll(sh: Shape, v: seq<int>, n: seq<int>)
    requires sh.WellFormed() && |v| == |sh.queue| && |n| == |sh.entity|
    ensures (forall q :: 0 <= q < |sh.entity| ==> Sum(Terms(sh, v, n, q)) <= n[q])
            ==> Sum(TaskTerms(sh, v)) <= n[0]
    ensures (forall q :: 0 <= q < |sh.entity| ==> Sum(Terms(sh, v, n, q)) == n[q])
            ==> Sum(TaskTerms(sh, v)) == n[0]
  {
    ExpandTo(sh, v, n, |sh.entity|);
    assert Frontier(sh, v, n, |sh.entity|) == TaskTerms(sh, v);
  }
}
