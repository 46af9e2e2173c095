/** Hierarchical load: each queue's share of the root's load, cached once per jiffy and
    renewed along one path at a time. */
module HLoads {
  import opened GroupTree
  import opened Sums
  import opened Arithmetic

  const None: int := -1

  /** Load averages of the entities and of the queues. */
  datatype Loads = Loads(avg: seq<nat>, queueAvg: seq<nat>)

  predicate LoadsOk(sh: Shape, ld: Loads) {
    sh.WellFormed() && |ld.avg| == |sh.queue| && |ld.queueAvg| == |sh.entity|
  }

  function Part(h: nat, avg: nat, queueAvg: nat): nat { Floor(h * avg, queueAvg + 1) }

  /** The plain top-down recursion. */
  function H(sh: Shape, ld: Loads, q: nat): nat
    requires LoadsOk(sh, ld) && sh.IsQueue(q)
    decreases q
  {
    if q == 0 then ld.queueAvg[0]
    else Part(H(sh, ld, sh.Parent(q)), ld.avg[sh.entity[q]], ld.queueAvg[sh.Parent(q)])
  }

  function TaskH(sh: Shape, ld: Loads, e: nat): nat
    requires LoadsOk(sh, ld) && sh.IsEntity(e)
  {
    Part(H(sh, ld, sh.queue[e]), ld.avg[e], ld.queueAvg[sh.queue[e]])
  }

  // ---- No load is made up ----

  /** The load averages of the entities on queue q. */
  ghost function OnQueue(sh: Shape, ld: Loads, q: nat): (r: seq<int>)
    requires LoadsOk(sh, ld)
    ensures |r| == |sh.queue|
  {
    seq(|sh.queue|, e requires 0 <= e < |sh.queue| => if sh.queue[e] == q then ld.avg[e] else 0)
  }

  lemma {:induction false} SumParts(x: seq<int>, t: seq<int>, h: nat, d: nat)
    requires |x| == |t| && forall i :: 0 <= i < |x| ==> 0 <= x[i] && 0 <= t[i] && t[i] == Part(h, x[i], d)
    ensures Sum(t) * (d + 1) <= h * Sum(x)
  {
    hide Floor;
    if x != [] {
      SumParts(x[1..], t[1..], h, d);
      FloorBounds(h * x[0], d + 1);
      assert (t[0] + Sum(t[1..])) * (d + 1) == t[0] * (d + 1) + Sum(t[1..]) * (d + 1);
      assert h * (x[0] + Sum(x[1..])) == h * x[0] + h * Sum(x[1..]);
    }
  }

  lemma AtMostWhole(s: nat, x: nat, h: nat, d: nat)
    requires s * d <= h * x && x <= d && d > 0
    ensures s <= h
  {
    MulMono(x, d, h);
    Cancel(s, h, d);
  }

  lemma SumNonNegative(s: seq<int>)
    requires forall i :: 0 <= i < |s| ==> 0 <= s[i]
    ensures 0 <= Sum(s)
  {
    SumZero(seq(|s|, _ => 0));
    SumMonotone(seq(|s|, _ => 0), s);
  }

  lemma PartsWithin(x: seq<int>, t: seq<int>, h: nat, d: nat)
    requires |x| == |t| && forall i :: 0 <= i < |x| ==> 0 <= x[i] && 0 <= t[i] && t[i] == Part(h, x[i], d)
    requires Sum(x) <= d
    ensures Sum(t) <= h
  {
    hide Part, Sum;
    SumParts(x, t, h, d);
    SumNonNegative(x);
    SumNonNegative(t);
    AtMostWhole(Sum(t), Sum(x), h, d + 1);
  }

  /** If no queue's average is below the sum of its entities' averages, the loads of all tasks
      together are at most the root's average. */
  lemma TotalTaskLoad(sh: Shape, ld: Loads, tasks: seq<int>)
    requires LoadsOk(sh, ld) && |tasks| == |sh.queue|
    requires forall e :: 0 <= e < |tasks| ==> tasks[e] == if sh.owner[e] == 0 then TaskH(sh, ld, e) else 0
    requires forall q :: 0 <= q < |sh.entity| ==> Sum(OnQueue(sh, ld, q)) <= ld.queueAvg[q]
    ensures Sum(tasks) <= ld.queueAvg[0]
  {
    hide Part, H;
    var v: seq<int> := seq(|sh.queue|, e requires 0 <= e < |sh.queue| => TaskH(sh, ld, e));
    var n: seq<int> := seq(|sh.entity|, q requires 0 <= q < |sh.entity| => H(sh, ld, q));
    forall q | 0 <= q < |sh.entity| ensures Sum(Terms(sh, v, n, q)) <= n[q] {
      QueueWithin(sh, ld, v, n, q);
    }
    ExpandAll(sh, v, n);
    assert tasks == TaskTerms(sh, v);
    RootLoad(sh, ld);
  }

  lemma RootLoad(sh: Shape, ld: Loads)
    requires LoadsOk(sh, ld)
    ensures H(sh, ld, 0) == ld.queueAvg[0]
  {
  }

  lemma QueueWithin(sh: Shape, ld: Loads, v: seq<int>, n: seq<int>, q: nat)
    requires LoadsOk(sh, ld) && sh.IsQueue(q) && |v| == |sh.queue| && |n| == |sh.entity|
    requires forall e :: 0 <= e < |v| ==> v[e] == TaskH(sh, ld, e)
    requires forall c :: 0 <= c < |n| ==> n[c] == H(sh, ld, c)
    requires Sum(OnQueue(sh, ld, q)) <= ld.queueAvg[q]
    ensures Sum(Terms(sh, v, n, q)) <= n[q]
  {
    hide Part, H;
    var x, t := OnQueue(sh, ld, q), Terms(sh, v, n, q);
    forall e | 0 <= e < |t| ensures 0 <= t[e] && t[e] == Part(n[q], x[e], ld.queueAvg[q]) {
      if sh.queue[e] != q {
        NoPart(n[q], ld.queueAvg[q]);
      } else if sh.owner[e] != 0 {
        GroupPart(sh, ld, sh.owner[e]);
      }
    }
    PartsWithin(x, t, n[q], ld.queueAvg[q]);
  }

  lemma NoPart(h: nat, d: nat)
    ensures Part(h, 0, d) == 0
  {
  }

  lemma GroupPart(sh: Shape, ld: Loads, q: nat)
    requires LoadsOk(sh, ld) && 0 < q < |sh.entity|
    ensures H(sh, ld, q) == TaskH(sh, ld, sh.entity[q])
  {
  }

  lemma HStep(sh: Shape, ld: Loads, q: nat)
    requires LoadsOk(sh, ld) && sh.IsQueue(q) && q > 0
    ensures H(sh, ld, q) == Part(H(sh, ld, sh.Parent(q)), ld.avg[sh.entity[q]], ld.queueAvg[sh.Parent(q)])
  {
  }

  // ---- The exact hierarchical load ----

  /** Each queue's share by exact division. */
  ghost function Exact(sh: Shape, ld: Loads, q: nat): real
    requires LoadsOk(sh, ld) && sh.IsQueue(q)
    decreases q
  {
    if q == 0 then ld.queueAvg[0] as real
    else ExactPart(Exact(sh, ld, sh.Parent(q)), ld.avg[sh.entity[q]], ld.queueAvg[sh.Parent(q)])
  }

  function Fraction(avg: nat, d: nat): (r: real)
    requires d > 0
  {
    avg as real / d as real
  }

  function ExactPart(h: real, avg: nat, queueAvg: nat): real { Times(h, Fraction(avg, queueAvg + 1)) }

  function Depth(sh: Shape, q: nat): nat
    requires sh.WellFormed() && sh.IsQueue(q)
    decreases q
  {
    if q == 0 then 0 else 1 + Depth(sh, sh.Parent(q))
  }

  lemma FractionIs(avg: nat, d: nat)
    requires d > 0
    ensures 0.0 <= Fraction(avg, d) && Fraction(avg, d) * d as real == avg as real
    ensures avg <= d ==> Fraction(avg, d) <= 1.0
  {
    var r := avg as real / d as real;
    assert r * d as real == avg as real;
    DivideBounds(0.0, r, d as real);
    if avg <= d { DivideBounds(r, 1.0, d as real); }
  }

  lemma PartBounds(h: nat, avg: nat, d: nat)
    ensures var part := Part(h, avg, d) as real; part <= ExactPart(h as real, avg, d) <= part + 1.0
  {
    hide Floor, Times;
    FloorBounds(h * avg, d + 1);
    FractionIs(avg, d + 1);
    var part := Part(h, avg, d);
    CastProduct(part, d + 1);
    CastProduct(h, avg);
    assert (part * (d + 1) + (d + 1)) as real == (part * (d + 1)) as real + (d + 1) as real;
    RealPart(part as real, h as real, avg as real, (d + 1) as real, Fraction(avg, d + 1));
  }

  lemma RealPart(part: real, h: real, avg: real, d: real, r: real)
    requires d > 0.0 && part * d <= h * avg <= part * d + d && r * d == avg
    ensures part <= Times(h, r) <= part + 1.0
  {
    assert h * r * d == h * avg;
    DivideBounds(part, h * r, d);
    assert (part + 1.0) * d == part * d + d;
    DivideBounds(h * r, part + 1.0, d);
  }

  /** An error of at most e above does not grow in the part. */
  lemma PartError(h: nat, x: real, e: real, avg: nat, d: nat)
    requires avg <= d + 1 && 0.0 <= e && h as real <= x <= h as real + e
    ensures ExactPart(h as real, avg, d) <= ExactPart(x, avg, d) <= ExactPart(h as real, avg, d) + e
  {
    hide Times, Fraction;
    FractionIs(avg, d + 1);
    TimesStep(h as real, x, Fraction(avg, d + 1), e);
  }

  predicate PartsOfQueue(sh: Shape, ld: Loads)
    requires LoadsOk(sh, ld)
  {
    forall e :: 0 <= e < |ld.avg| ==> ld.avg[e] <= ld.queueAvg[sh.queue[e]] + 1
  }

  /** The computed load of a queue is at most the exact one, and short of it by at most one unit for
      each level, if no entity's average is beyond that of its queue. */
  lemma {:induction false} HNearExact(sh: Shape, ld: Loads, q: nat)
    requires LoadsOk(sh, ld) && PartsOfQueue(sh, ld) && sh.IsQueue(q)
    ensures H(sh, ld, q) as real <= Exact(sh, ld, q) <= (H(sh, ld, q) + Depth(sh, q)) as real
    decreases q
  {
    hide Part, ExactPart;
    if q > 0 {
      var p, e := sh.Parent(q), sh.entity[q];
      HNearExact(sh, ld, p);
      var h, x, err := H(sh, ld, p), Exact(sh, ld, p), Depth(sh, p) as real;
      assert sh.queue[e] == p;
      PartBounds(h, ld.avg[e], ld.queueAvg[p]);
      PartError(h, x, err, ld.avg[e], ld.queueAvg[p]);
    }
  }

  /** So is that of a task, with one level more. */
  lemma TaskNearExact(sh: Shape, ld: Loads, e: nat)
    requires LoadsOk(sh, ld) && PartsOfQueue(sh, ld) && sh.IsEntity(e)
    ensures var q := sh.queue[e]; var exact := ExactPart(Exact(sh, ld, q), ld.avg[e], ld.queueAvg[q]);
      TaskH(sh, ld, e) as real <= exact <= (TaskH(sh, ld, e) + Depth(sh, q) + 1) as real
  {
    hide Part, ExactPart, H, Exact, Depth;
    var q := sh.queue[e];
    HNearExact(sh, ld, q);
    PartBounds(H(sh, ld, q), ld.avg[e], ld.queueAvg[q]);
    PartError(H(sh, ld, q), Exact(sh, ld, q), Depth(sh, q) as real, ld.avg[e], ld.queueAvg[q]);
  }

  // ---- The cache ----

  /** A path of queues, each the parent of the one before. */
  ghost predicate Upward(sh: Shape, path: seq<nat>)
    requires sh.WellFormed()
  {
    && |path| > 0 && (forall i :: 0 <= i < |path| ==> sh.IsQueue(path[i]))
    && (forall i :: 0 <= i < |path| - 1 ==> path[i] > 0 && sh.Parent(path[i]) == path[i + 1])
    && (forall i, j :: 0 <= i < j < |path| ==> path[j] < path[i])
  }

  /** h_load_next leads from the end of the path back to its start. */
  ghost predicate Chained(sh: Shape, path: seq<nat>, next: seq<int>)
    requires sh.WellFormed() && Upward(sh, path) && |next| == |sh.entity|
  {
    next[path[0]] == None && forall i :: 0 < i < |path| ==> next[path[i]] == sh.entity[path[i - 1]]
  }

  lemma ChainEnd(sh: Shape, path: seq<nat>, next: seq<int>, k: nat)
    requires sh.WellFormed() && Upward(sh, path) && |next| == |sh.entity| && Chained(sh, path, next) && k < |path|
    ensures next[path[k]] == None <==> k == 0
  {
    if k > 0 { assert next[path[k]] == sh.entity[path[k - 1]]; }
  }

  lemma ExtendPath(sh: Shape, path: seq<nat>, next: seq<int>)
    requires sh.WellFormed() && Upward(sh, path) && |next| == |sh.entity|
    requires Chained(sh, path, next) && path[|path| - 1] > 0
    ensures var c := path[|path| - 1]; var p := sh.Parent(c);
      Upward(sh, path + [p]) && Chained(sh, path + [p], next[p := sh.entity[c]])
  {
  }

  /** Every queue on the path is an ancestor of its first, or that. */
  lemma PathIsAbove(sh: Shape, path: seq<nat>)
    requires sh.WellFormed() && Upward(sh, path)
    ensures forall x :: x in path ==> sh.IsQueue(path[0]) && sh.IsAncestorOrSelf(x, path[0])
  {
    forall k | 0 <= k < |path| ensures sh.IsAncestorOrSelf(path[k], path[0]) { PathStep(sh, path, k, 0); }
  }

  lemma {:induction false} PathStep(sh: Shape, path: seq<nat>, k: nat, i: nat)
    requires sh.WellFormed() && Upward(sh, path) && i <= k < |path|
    ensures sh.IsQueue(path[i]) && sh.IsAncestorOrSelf(path[k], path[i])
    decreases k - i
  {
    if i < k { PathStep(sh, path, k, i + 1); }
  }

  class HLoad {
    const sh: Shape
    var loads: Loads
    var jiffies: nat
    var hLoad: seq<nat>
    var lastUpdate: seq<nat>
    var next: seq<int>

    ghost predicate Sized()
      reads this
    {
      LoadsOk(sh, loads) && |hLoad| == |lastUpdate| == |next| == |sh.entity|
    }

    /** What is stamped with this jiffy is right, and so is everything above it. */
    ghost predicate Valid()
      reads this
    {
      && Sized()
      && forall q: nat :: q < |sh.entity| ==>
           && lastUpdate[q] <= jiffies
           && (lastUpdate[q] == jiffies ==> hLoad[q] == H(sh, loads, q))
           && (lastUpdate[q] == jiffies && q > 0 ==> lastUpdate[sh.Parent(q)] == jiffies)
    }

    constructor (sh: Shape, loads: Loads)
      requires LoadsOk(sh, loads)
      ensures Valid() && this.sh == sh && this.loads == loads
    {
      this.sh, this.loads, jiffies := sh, loads, 1;
      hLoad, lastUpdate := seq(|sh.entity|, _ => 0), seq(|sh.entity|, _ => 0);
      next := seq(|sh.entity|, _ => None);
    }

    /** Loads may change between jiffies. */
    method NextJiffy(ld: Loads)
      requires Valid() && LoadsOk(sh, ld)
      modifies `loads, `jiffies
      ensures Valid() && loads == ld
    {
      loads, jiffies := ld, jiffies + 1;
    }

    /** update_cfs_rq_h_load: up to the first queue cached in this jiffy, then down again. */
    method UpdateHLoad(q: nat)
      requires Valid() && sh.IsQueue(q)
      modifies `hLoad, `lastUpdate, `next
      ensures Valid() && lastUpdate[q] == jiffies
      ensures forall a: nat :: sh.IsAncestorOrSelf(a, q) && sh.IsQueue(a) ==>
        lastUpdate[a] == jiffies && hLoad[a] == H(sh, loads, a)
      ensures forall x: nat :: x < |sh.entity| && !sh.IsAncestorOrSelf(x, q) ==>
        hLoad[x] == old(hLoad)[x] && lastUpdate[x] == old(lastUpdate)[x]
    {
      hide H;
      if lastUpdate[q] == jiffies {
        CachedAbove(q);
        return;
      }
      var top, path := MarkPath(q);
      PathIsAbove(sh, path);
      FollowPath(top, path);
      CachedAbove(q);
    }

    /** The walk up: h_load_next of every queue on the path points back down. */
    method MarkPath(q: nat) returns (top: nat, ghost path: seq<nat>)
      requires Valid() && sh.IsQueue(q) && lastUpdate[q] != jiffies
      modifies `hLoad, `lastUpdate, `next
      ensures Valid() && Upward(sh, path) && Chained(sh, path, next)
      ensures path[0] == q && path[|path| - 1] == top && lastUpdate[top] == jiffies
      ensures forall i :: 0 <= i < |path| - 1 ==> old(lastUpdate)[path[i]] != jiffies
      ensures forall x: nat :: x < |sh.entity| && x !in path ==>
        hLoad[x] == old(hLoad)[x] && lastUpdate[x] == old(lastUpdate)[x]
    {
      hide H;
      top, path := q, [q];
      next := next[q := None];
      while top > 0 && lastUpdate[top] != jiffies
        invariant Valid() && hLoad == old(hLoad) && lastUpdate == old(lastUpdate)
        invariant Upward(sh, path) && Chained(sh, path, next) && path[0] == q && path[|path| - 1] == top
        invariant forall i :: 0 <= i < |path| - 1 ==> old(lastUpdate)[path[i]] != jiffies
        decreases top
      {
        ExtendPath(sh, path, next);
        var se := sh.entity[top];
        top := sh.queue[se];
        next := next[top := se];
        path := path + [top];
      }
      if lastUpdate[top] != jiffies {
        hLoad := hLoad[top := loads.queueAvg[top]];
        lastUpdate := lastUpdate[top := jiffies];
        RootLoad(sh, loads);
      }
    }

    /** The walk down h_load_next. */
    method FollowPath(top: nat, ghost path: seq<nat>)
      requires Valid() && Upward(sh, path) && Chained(sh, path, next)
      requires path[|path| - 1] == top && lastUpdate[top] == jiffies
      modifies `hLoad, `lastUpdate
      ensures Valid() && lastUpdate[path[0]] == jiffies
      ensures forall x: nat :: x < |sh.entity| && x !in path ==>
        hLoad[x] == old(hLoad)[x] && lastUpdate[x] == old(lastUpdate)[x]
    {
      hide H;
      var c := top;
      ghost var k := |path| - 1;
      while next[c] != None
        invariant Valid() && 0 <= k < |path| && path[k] == c && lastUpdate[c] == jiffies
        invariant forall x: nat :: x < |sh.entity| && x !in path ==>
          hLoad[x] == old(hLoad)[x] && lastUpdate[x] == old(lastUpdate)[x]
        decreases k
      {
        var se, p := next[c], c;
        k := k - 1;
        assert path[k] > 0 && sh.Parent(path[k]) == p && se == sh.entity[path[k]];
        var load := Part(hLoad[c], loads.avg[se], loads.queueAvg[c]);
        c := sh.owner[se];
        HStep(sh, loads, c);
        hLoad := hLoad[c := load];
        lastUpdate := lastUpdate[c := jiffies];
      }
      ChainEnd(sh, path, next, k);
    }

    /** task_h_load */
    method TaskHLoad(e: nat) returns (r: nat)
      requires Valid() && sh.IsEntity(e) && sh.owner[e] == 0
      modifies `hLoad, `lastUpdate, `next
      ensures Valid() && r == TaskH(sh, loads, e)
    {
      hide H;
      var q := sh.queue[e];
      UpdateHLoad(q);
      assert sh.IsAncestorOrSelf(q, q);
      r := Part(hLoad[q], loads.avg[e], loads.queueAvg[q]);
    }

    lemma {:induction false} CachedAbove(q: nat)
      requires Valid() && sh.IsQueue(q) && lastUpdate[q] == jiffies
      ensures forall a: nat :: sh.IsAncestorOrSelf(a, q) && sh.IsQueue(a) ==>
        lastUpdate[a] == jiffies && hLoad[a] == H(sh, loads, a)
      decreases q
    {
      if q > 0 { CachedAbove(sh.Parent(q)); }
    }
  }
}
