/** The leaf list: the queues with load on one cpu, linked so that a walk from the head meets
    every queue before its ancestors. */
module LeafLists {
  import opened GroupTree
  import opened Seqs
  import opened ThrottleClocks

  /** tmp_alone_branch: the head of the list, or the top of a branch not yet connected. */
  datatype Place = Head | At(q: nat)

  /** Nothing in the list comes after one of its ancestors, or twice. */
  ghost predicate Ordered(sh: Shape, list: seq<nat>)
    requires sh.WellFormed() && Within(list, |sh.entity|)
  {
    forall i, j :: 0 <= i < j < |list| ==> !sh.IsAncestorOrSelf(list[i], list[j])
  }

  /** The parent of a listed queue is listed, except above the unconnected branch. */
  ghost predicate Connected(sh: Shape, list: seq<nat>, alone: Place)
    requires sh.WellFormed() && Within(list, |sh.entity|)
  {
    && (forall i :: 0 <= i < |list| && list[i] > 0 && alone != At(list[i]) ==> sh.Parent(list[i]) in list)
    && (alone.At? ==> alone.q in list && alone.q > 0 && sh.Parent(alone.q) !in list)
  }

  ghost predicate Inv(sh: Shape, list: seq<nat>, alone: Place) {
    sh.WellFormed() && Within(list, |sh.entity|) && Ordered(sh, list) && Connected(sh, list, alone)
  }

  lemma OrderedDistinct(sh: Shape, list: seq<nat>)
    requires sh.WellFormed() && Within(list, |sh.entity|) && Ordered(sh, list)
    ensures Distinct(list)
  {
    forall i, j | 0 <= i < j < |list| ensures list[i] != list[j] {
      assert !sh.IsAncestorOrSelf(list[i], list[j]);
    }
  }

  function Insert(list: seq<nat>, k: nat, q: nat): seq<nat>
    requires k <= |list|
  {
    list[..k] + [q] + list[k..]
  }

  /** Where list_add_leaf_cfs_rq links a queue, and what it leaves in tmp_alone_branch. */
  function Slot(sh: Shape, list: seq<nat>, alone: Place, q: nat): (k: nat)
    requires sh.WellFormed() && sh.IsQueue(q) && (alone.At? ==> alone.q in list)
    ensures k <= |list|
  {
    if q > 0 && sh.Parent(q) in list then IndexOf(list, sh.Parent(q))
    else if q == 0 then |list|
    else if alone == Head then 0
    else IndexOf(list, alone.q) + 1
  }

  function Next(sh: Shape, list: seq<nat>, q: nat): Place
    requires sh.WellFormed() && sh.IsQueue(q)
  {
    if q == 0 || sh.Parent(q) in list then Head else At(q)
  }

  // ---- Linking one queue ----

  lemma {:induction false} AncestorTrans(sh: Shape, a: nat, b: nat, c: nat)
    requires sh.WellFormed() && sh.IsQueue(c) && sh.IsAncestorOrSelf(b, c)
    requires sh.IsQueue(b) && sh.IsAncestorOrSelf(a, b)
    ensures sh.IsAncestorOrSelf(a, c)
    decreases c
  {
    if b != c { AncestorTrans(sh, a, b, sh.Parent(c)); }
  }

  /** A listed queue below an unlisted one can only be at or below the unconnected branch. */
  lemma {:induction false} BelowUnlisted(sh: Shape, list: seq<nat>, alone: Place, q: nat, x: nat)
    requires Inv(sh, list, alone) && q !in list && x in list && sh.IsQueue(x)
    ensures sh.IsAncestorOrSelf(q, x) ==> alone.At? && sh.IsQueue(alone.q) && sh.IsAncestorOrSelf(alone.q, x)
    decreases x
  {
    var i :| 0 <= i < |list| && list[i] == x;
    if x > 0 && alone != At(x) { BelowUnlisted(sh, list, alone, q, sh.Parent(x)); }
  }

  lemma InsertOrdered(sh: Shape, list: seq<nat>, k: nat, q: nat)
    requires sh.WellFormed() && Within(list, |sh.entity|) && Ordered(sh, list) && sh.IsQueue(q) && k <= |list|
    requires forall i :: 0 <= i < k ==> !sh.IsAncestorOrSelf(list[i], q)
    requires forall i :: k <= i < |list| ==> !sh.IsAncestorOrSelf(q, list[i])
    ensures Within(Insert(list, k, q), |sh.entity|) && Ordered(sh, Insert(list, k, q))
    ensures forall x :: x in Insert(list, k, q) <==> x in list || x == q
  {
    var t := Insert(list, k, q);
    assert forall i :: 0 <= i < |t| ==> t[i] == if i < k then list[i] else if i == k then q else list[i - 1];
    forall x ensures x in t <==> x in list || x == q {
      if x in list { assert x in list[..k] || x in list[k..]; }
    }
  }

  /** A walk may link q: nothing is left unconnected, or what is left hangs below q. */
  predicate MayLink(sh: Shape, alone: Place, q: nat)
    requires sh.WellFormed()
  {
    alone.At? ==> sh.IsQueue(alone.q) && alone.q > 0 && sh.Parent(alone.q) == q
  }

  lemma LinkBefore(sh: Shape, list: seq<nat>, alone: Place, q: nat, i: nat)
    requires Inv(sh, list, alone) && sh.IsQueue(q) && q !in list && MayLink(sh, alone, q)
    ensures i < Slot(sh, list, alone, q) ==> !sh.IsAncestorOrSelf(list[i], q)
  {
    var k := Slot(sh, list, alone, q);
    if i >= k { return; }
    assert list[i] != q;
    if q > 0 && sh.Parent(q) in list {
      assert !sh.IsAncestorOrSelf(list[i], list[k]);
    } else if q > 0 {
      var b := IndexOf(list, alone.q);
      if i == b { AncestorsBefore(sh, alone.q, q); } else { assert !sh.IsAncestorOrSelf(list[i], list[b]); }
    }
  }

  lemma LaterThanBelow(sh: Shape, list: seq<nat>, i: nat, j: nat)
    requires sh.WellFormed() && Within(list, |sh.entity|) && Ordered(sh, list) && i < |list| && j < |list|
    requires sh.IsAncestorOrSelf(list[i], list[j])
    ensures j <= i
  {
  }

  /** The unconnected branch ends before the place where the queue above it is linked. */
  lemma AloneBeforeSlot(sh: Shape, list: seq<nat>, alone: Place, q: nat)
    requires Inv(sh, list, alone) && sh.IsQueue(q) && q !in list && MayLink(sh, alone, q) && alone.At?
    ensures IndexOf(list, alone.q) < Slot(sh, list, alone, q)
  {
    var b, k := IndexOf(list, alone.q), Slot(sh, list, alone, q);
    if q > 0 && sh.Parent(q) in list {
      var p := sh.Parent(q);
      assert sh.IsAncestorOrSelf(p, p) && sh.IsAncestorOrSelf(p, q);
      LaterThanBelow(sh, list, k, b);
    }
  }

  lemma LinkAfter(sh: Shape, list: seq<nat>, alone: Place, q: nat, i: nat)
    requires Inv(sh, list, alone) && sh.IsQueue(q) && q !in list && MayLink(sh, alone, q)
    requires Slot(sh, list, alone, q) <= i < |list|
    ensures !sh.IsAncestorOrSelf(q, list[i])
  {
    assert list[i] in list;
    BelowUnlisted(sh, list, alone, q, list[i]);
    if alone.At? {
      AloneBeforeSlot(sh, list, alone, q);
      assert !sh.IsAncestorOrSelf(list[IndexOf(list, alone.q)], list[i]);
    }
  }

  /** Linking keeps every queue before its ancestors and leaves at most q unconnected. */
  lemma LinkKeeps(sh: Shape, list: seq<nat>, alone: Place, q: nat)
    requires Inv(sh, list, alone) && sh.IsQueue(q) && q !in list && MayLink(sh, alone, q)
    ensures var k := Slot(sh, list, alone, q); Inv(sh, Insert(list, k, q), Next(sh, list, q))
    ensures forall x :: x in Insert(list, Slot(sh, list, alone, q), q) <==> x in list || x == q
  {
    var k := Slot(sh, list, alone, q);
    forall i | 0 <= i < k ensures !sh.IsAncestorOrSelf(list[i], q) { LinkBefore(sh, list, alone, q, i); }
    forall i | k <= i < |list| ensures !sh.IsAncestorOrSelf(q, list[i]) { LinkAfter(sh, list, alone, q, i); }
    InsertOrdered(sh, list, k, q);
    var t := Insert(list, k, q);
    forall i | 0 <= i < |t| && t[i] > 0 && Next(sh, list, q) != At(t[i]) ensures sh.Parent(t[i]) in t {
      assert t[i] in t;
    }
  }

  /** With nothing unconnected, a walk from the head meets every ancestor of a listed queue,
      and meets it later. */
  lemma {:induction false} BottomUp(sh: Shape, list: seq<nat>, q: nat, a: nat)
    requires Inv(sh, list, Head) && q in list && sh.IsQueue(q) && sh.IsAncestorOrSelf(a, q) && a != q
    ensures a in list && IndexOf(list, q) < IndexOf(list, a)
    decreases q
  {
    var i, p := IndexOf(list, q), sh.Parent(q);
    assert list[i] == q && p in list;
    if a != p { BottomUp(sh, list, p, a); }
    AncestorIsQueue(sh, a, q);
    assert list[IndexOf(list, a)] == a;
  }

  /** Is x on the path from q up to top? */
  predicate OnPath(sh: Shape, q: nat, top: nat, x: nat)
    requires sh.WellFormed() && sh.IsQueue(q) && sh.IsQueue(x)
  {
    sh.IsAncestorOrSelf(x, q) && sh.IsAncestorOrSelf(top, x)
  }

  /** The path from q up to the parent of t is the path up to t and the parent. */
  lemma PathStep(sh: Shape, q: nat, t: nat)
    requires sh.WellFormed() && sh.IsQueue(q) && sh.IsQueue(t) && t > 0 && sh.IsAncestorOrSelf(t, q)
    ensures sh.IsAncestorOrSelf(sh.Parent(t), q)
    ensures forall x: nat :: x < |sh.entity| ==>
      (OnPath(sh, q, sh.Parent(t), x) <==> x == sh.Parent(t) || OnPath(sh, q, t, x))
    ensures !OnPath(sh, q, t, sh.Parent(t))
  {
    var p := sh.Parent(t);
    AncestorsBefore(sh, t, p);
    assert sh.IsAncestorOrSelf(p, p) && sh.IsAncestorOrSelf(p, t);
    AncestorTrans(sh, p, t, q);
    forall x: nat | x < |sh.entity|
      ensures OnPath(sh, q, p, x) <==> x == p || OnPath(sh, q, t, x)
    {
      if sh.IsAncestorOrSelf(t, x) { AncestorTrans(sh, p, t, x); }
      if sh.IsAncestorOrSelf(x, q) { Between(sh, q, t, x); }
    }
  }

  lemma PathStart(sh: Shape, q: nat)
    requires sh.WellFormed() && sh.IsQueue(q)
    ensures forall x: nat :: x < |sh.entity| ==> (OnPath(sh, q, q, x) <==> x == q)
  {
    forall x: nat | x < |sh.entity| ensures OnPath(sh, q, q, x) <==> x == q {
      if x < q { AncestorsBefore(sh, q, x); } else if x > q { AncestorsBefore(sh, x, q); }
    }
  }

  /** A walk from q up to top put one more entity on every queue of the path, and listed it. */
  ghost predicate Walked(sh: Shape, q: nat, top: nat, r: seq<nat>, r': seq<nat>, l: seq<nat>, l': seq<nat>)
    requires sh.WellFormed() && sh.IsQueue(q)
  {
    |r| == |r'| == |sh.entity| && forall x: nat :: x < |sh.entity| ==>
      && r'[x] == r[x] + (if OnPath(sh, q, top, x) then 1 else 0)
      && (x in l' <==> x in l || OnPath(sh, q, top, x))
  }

  lemma WalkStart(sh: Shape, q: nat, r: seq<nat>, r': seq<nat>, l: seq<nat>, l': seq<nat>)
    requires sh.WellFormed() && sh.IsQueue(q) && |r| == |sh.entity|
    requires r' == r[q := r[q] + 1] && forall x :: x in l' <==> x in l || x == q
    ensures Walked(sh, q, q, r, r', l, l')
  {
    hide OnPath;
    PathStart(sh, q);
  }

  lemma WalkStep(sh: Shape, q: nat, t: nat, r: seq<nat>, r': seq<nat>, r'': seq<nat>,
                 l: seq<nat>, l': seq<nat>, l'': seq<nat>)
    requires sh.WellFormed() && sh.IsQueue(q) && sh.IsQueue(t) && t > 0 && sh.IsAncestorOrSelf(t, q)
    requires Walked(sh, q, t, r, r', l, l')
    requires r'' == r'[sh.Parent(t) := r'[sh.Parent(t)] + 1] && forall x :: x in l'' <==> x in l' || x == sh.Parent(t)
    ensures Walked(sh, q, sh.Parent(t), r, r'', l, l'')
    ensures r'[sh.Parent(t)] == r[sh.Parent(t)] && sh.IsAncestorOrSelf(sh.Parent(t), q)
  {
    hide OnPath;
    PathStep(sh, q, t);
  }

  /** A walk has not listed the parent of the last queue it reached. */
  lemma NotAbove(sh: Shape, q: nat, t: nat, r: seq<nat>, r': seq<nat>, l: seq<nat>, l': seq<nat>)
    requires sh.WellFormed() && sh.IsQueue(q) && sh.IsQueue(t) && t > 0 && Walked(sh, q, t, r, r', l, l')
    ensures sh.Parent(t) in l' <==> sh.Parent(t) in l
  {
    AncestorsBefore(sh, t, sh.Parent(t));
  }

  /** Two queues on one path are comparable. */
  lemma {:induction false} Between(sh: Shape, q: nat, t: nat, x: nat)
    requires sh.WellFormed() && sh.IsQueue(q) && sh.IsQueue(t) && t > 0 && sh.IsQueue(x)
    requires sh.IsAncestorOrSelf(t, q) && sh.IsAncestorOrSelf(x, q)
    ensures sh.IsAncestorOrSelf(t, x) || x == sh.Parent(t) || !sh.IsAncestorOrSelf(sh.Parent(t), x)
    decreases q
  {
    if q == t {
      var p := sh.Parent(t);
      if x != t && x != p {
        if x < p { AncestorsBefore(sh, p, x); } else { AncestorsBefore(sh, x, p); }
      }
    } else if q != x {
      Between(sh, sh.Parent(q), t, x);
    }
  }

  /** A walk has just dealt with queue t: it left something unconnected iff t's parent is not listed. */
  predicate Reached(sh: Shape, list: seq<nat>, alone: Place, t: nat)
    requires sh.WellFormed() && sh.IsQueue(t)
  {
    && t in list && (alone == Head || alone == At(t))
    && (alone == Head <==> t == 0 || sh.Parent(t) in list)
    && (t > 0 ==> MayLink(sh, alone, sh.Parent(t)))
  }

  lemma ReachedMeans(sh: Shape, list: seq<nat>, alone: Place, t: nat)
    requires sh.WellFormed() && sh.IsQueue(t) && Reached(sh, list, alone, t)
    ensures alone == Head <==> t == 0 || sh.Parent(t) in list
    ensures t > 0 ==> MayLink(sh, alone, sh.Parent(t))
  {
  }

  lemma TopStep(sh: Shape, throttled: seq<bool>, running: seq<nat>, q: nat)
    requires sh.WellFormed() && |throttled| == |running| == |sh.entity| && sh.IsQueue(q)
    requires !throttled[q] && running[q] == 0 && q != 0
    ensures Top(sh, throttled, running, sh.Parent(q)) == Top(sh, throttled, running, q)
  {
  }

  lemma TopHere(sh: Shape, throttled: seq<bool>, running: seq<nat>, q: nat)
    requires sh.WellFormed() && |throttled| == |running| == |sh.entity| && sh.IsQueue(q)
    requires throttled[q] || running[q] > 0 || q == 0
    ensures Top(sh, throttled, running, q) == q
  {
  }

  lemma Reaches(sh: Shape, list: seq<nat>, alone: Place, t: nat)
    requires Inv(sh, list, alone) && sh.IsQueue(t) && t in list && (alone == Head || alone == At(t))
    ensures Reached(sh, list, alone, t)
  {
    var i :| 0 <= i < |list| && list[i] == t;
  }

  // ---- Walks and sweeps ----

  /** The queue at which the bottom-up walk of enqueue_task_fair stops calling enqueue_entity. */
  function Top(sh: Shape, throttled: seq<bool>, running: seq<nat>, q: nat): (t: nat)
    requires sh.WellFormed() && |throttled| == |running| == |sh.entity| && sh.IsQueue(q)
    ensures sh.IsQueue(t) && sh.IsAncestorOrSelf(t, q)
    ensures throttled[t] || running[t] > 0 || t == 0
    decreases q
  {
    if throttled[q] || running[q] > 0 || q == 0 then q else Top(sh, throttled, running, sh.Parent(q))
  }

  /** What a sweep leaves. */
  function Kept(list: seq<nat>, gone: seq<bool>): seq<nat>
    requires Within(list, |gone|)
  {
    if list == [] then [] else (if gone[list[0]] then [] else [list[0]]) + Kept(list[1..], gone)
  }

  lemma KeptHead(list: seq<nat>, i: nat, gone: seq<bool>)
    requires Within(list, |gone|) && i < |list|
    ensures Kept(list[i..], gone) == (if gone[list[i]] then [] else [list[i]]) + Kept(list[i + 1..], gone)
  {
    var rest := list[i..];
    assert rest[0] == list[i] && rest[1..] == list[i + 1..];
  }

  lemma KeptAll(list: seq<nat>, gone: seq<bool>)
    requires Within(list, |gone|)
    ensures list[..|list|] + Kept(list[|list|..], gone) == list
  {
  }

  lemma {:induction false} KeptMembers(list: seq<nat>, gone: seq<bool>)
    requires Within(list, |gone|)
    ensures forall x :: x in Kept(list, gone) <==> x in list && !gone[x]
  {
    if list != [] { KeptMembers(list[1..], gone); }
  }

  lemma {:induction false} KeptOrdered(sh: Shape, list: seq<nat>, gone: seq<bool>)
    requires sh.WellFormed() && |gone| == |sh.entity| && Within(list, |gone|) && Ordered(sh, list)
    ensures Within(Kept(list, gone), |sh.entity|) && Ordered(sh, Kept(list, gone))
  {
    if list != [] {
      var rest := Kept(list[1..], gone);
      KeptOrdered(sh, list[1..], gone);
      KeptMembers(list[1..], gone);
      forall j | 0 <= j < |rest| ensures !sh.IsAncestorOrSelf(list[0], rest[j]) {
        assert rest[j] in list[1..];
      }
    }
  }

  /** What the sweep deletes: queues without entities whose sums are spent, unless they or an
      ancestor are throttled. */
  function Gone(sh: Shape, running: seq<nat>, spent: seq<bool>, throttled: seq<bool>): (r: seq<bool>)
    requires sh.WellFormed() && |running| == |spent| == |throttled| == |sh.entity|
    ensures |r| == |sh.entity|
  {
    seq(|sh.entity|, q requires 0 <= q < |sh.entity| =>
      Decayed(running, spent, q) && Nesting(sh, throttled, q) == 0)
  }

  predicate Decayed(running: seq<nat>, spent: seq<bool>, q: nat)
    requires q < |running| == |spent|
  {
    running[q] == 0 && spent[q]
  }

  /** Below a decayed queue with no throttled queue at or above it, every listed child is decayed
      and not throttled. */
  ghost predicate ChildrenFollow(
    sh: Shape, list: seq<nat>, running: seq<nat>, spent: seq<bool>, throttled: seq<bool>)
    requires sh.WellFormed() && |running| == |spent| == |throttled| == |sh.entity| && Within(list, |sh.entity|)
  {
    forall i :: 0 <= i < |list| && list[i] > 0 ==>
      var p := sh.Parent(list[i]);
      Decayed(running, spent, p) && Nesting(sh, throttled, p) == 0 ==>
        Decayed(running, spent, list[i]) && !throttled[list[i]]
  }

  lemma GoneChild(sh: Shape, running: seq<nat>, spent: seq<bool>, throttled: seq<bool>, q: nat)
    requires sh.WellFormed() && |running| == |spent| == |throttled| == |sh.entity| && 0 < q < |sh.entity|
    ensures var gone, p := Gone(sh, running, spent, throttled), sh.Parent(q);
      (gone[p] ==> gone[q]) <==>
        (Decayed(running, spent, p) && Nesting(sh, throttled, p) == 0 ==>
          Decayed(running, spent, q) && !throttled[q])
  {
  }

  /** No queue that stays loses its parent. */
  ghost predicate ParentsStay(sh: Shape, list: seq<nat>, gone: seq<bool>)
    requires sh.WellFormed() && |gone| == |sh.entity| && Within(list, |gone|)
  {
    forall i :: 0 <= i < |list| && list[i] > 0 && !gone[list[i]] ==> !gone[sh.Parent(list[i])]
  }

  lemma KeptConnected(sh: Shape, list: seq<nat>, gone: seq<bool>)
    requires Inv(sh, list, Head) && |gone| == |sh.entity|
    ensures Inv(sh, Kept(list, gone), Head) <==> ParentsStay(sh, list, gone)
  {
    var t := Kept(list, gone);
    KeptMembers(list, gone);
    KeptOrdered(sh, list, gone);
    if Connected(sh, t, Head) {
      forall i | 0 <= i < |list| && list[i] > 0 && !gone[list[i]] ensures !gone[sh.Parent(list[i])] {
        var j :| 0 <= j < |t| && t[j] == list[i];
        assert sh.Parent(t[j]) in t;
      }
    }
    if ParentsStay(sh, list, gone) {
      forall j | 0 <= j < |t| && t[j] > 0 ensures sh.Parent(t[j]) in t {
        assert t[j] in t;
        var i :| 0 <= i < |list| && list[i] == t[j];
      }
    }
  }

  /** A sweep keeps the invariant exactly when decay and throttling are such that the children of
      what is deleted are deleted too. */
  lemma SweepKeepsIff(sh: Shape, list: seq<nat>, running: seq<nat>, spent: seq<bool>, throttled: seq<bool>)
    requires Inv(sh, list, Head) && |running| == |spent| == |throttled| == |sh.entity|
    ensures Inv(sh, Kept(list, Gone(sh, running, spent, throttled)), Head) <==>
      ChildrenFollow(sh, list, running, spent, throttled)
  {
    hide Ordered, Connected, Nesting, Decayed;
    forall i | 0 <= i < |list| && list[i] > 0 { GoneChild(sh, running, spent, throttled, list[i]); }
    KeptConnected(sh, list, Gone(sh, running, spent, throttled));
  }

  /** Without throttling: exactly when every listed child of a decayed queue is decayed. */
  lemma UnthrottledSweepKeepsIff(
    sh: Shape, list: seq<nat>, running: seq<nat>, spent: seq<bool>, throttled: seq<bool>)
    requires Inv(sh, list, Head) && |running| == |spent| == |throttled| == |sh.entity|
    requires forall q :: 0 <= q < |throttled| ==> !throttled[q]
    ensures Inv(sh, Kept(list, Gone(sh, running, spent, throttled)), Head) <==>
      forall i :: 0 <= i < |list| && list[i] > 0 ==>
        (Decayed(running, spent, sh.Parent(list[i])) ==> Decayed(running, spent, list[i]))
  {
    hide Ordered, Connected, Decayed;
    SweepKeepsIff(sh, list, running, spent, throttled);
    forall i | 0 <= i < |list| && list[i] > 0 ensures Nesting(sh, throttled, sh.Parent(list[i])) == 0 {
      NoNesting(sh, throttled, sh.Parent(list[i]));
    }
  }

  lemma {:induction false} NoNesting(sh: Shape, throttled: seq<bool>, q: nat)
    requires sh.WellFormed() && |throttled| == |sh.entity| && sh.IsQueue(q)
    requires forall c :: 0 <= c < |throttled| ==> !throttled[c]
    ensures Nesting(sh, throttled, q) == 0
    decreases q
  {
    if q > 0 { NoNesting(sh, throttled, sh.Parent(q)); }
  }

  // ---- The list kept in place ----

  class LeafList {
    const sh: Shape
    var list: seq<nat>
    var onList: seq<bool>
    var tmpAlone: Place
    /** nr_running of each queue */
    var running: seq<nat>

    ghost predicate Valid()
      reads this
    {
      && Inv(sh, list, tmpAlone) && |onList| == |running| == |sh.entity|
      && forall q: nat :: q < |onList| ==> (onList[q] <==> q in list)
    }

    /** Every queue with entities is listed. */
    ghost predicate Busy()
      reads this
      requires Valid()
    {
      forall q: nat :: q < |running| && running[q] > 0 ==> q in list
    }

    constructor (sh: Shape)
      requires sh.WellFormed()
      ensures Valid() && Busy() && this.sh == sh && list == [] && tmpAlone == Head
      ensures running == seq(|sh.entity|, _ => 0)
    {
      this.sh := sh;
      list, tmpAlone := [], Head;
      onList := seq(|sh.entity|, _ => false);
      running := seq(|sh.entity|, _ => 0);
    }

    method ListAddLeaf(q: nat)
      requires Valid() && sh.IsQueue(q) && MayLink(sh, tmpAlone, q)
      modifies `list, `onList, `tmpAlone
      ensures Valid() && (tmpAlone == Head || tmpAlone == At(q))
      ensures forall x :: x in list <==> x in old(list) || x == q
    {
      hide Ordered;
      if onList[q] { return; }
      LinkKeeps(sh, list, tmpAlone, q);
      var k := Slot(sh, list, tmpAlone, q);
      tmpAlone := Next(sh, list, q);
      list := Insert(list, k, q);
      onList := onList[q := true];
    }

    /** The flags say which queues the list holds, each once. */
    ghost predicate Flagged()
      reads this
    {
      && |onList| == |sh.entity| && Within(list, |onList|) && Distinct(list)
      && forall q: nat :: q < |onList| ==> (onList[q] <==> q in list)
    }

    method ListDelLeaf(i: nat)
      requires Flagged() && i < |list|
      modifies `list, `onList
      ensures Flagged() && list == old(list[..i] + list[i + 1..])
    {
      Without(list, i);
      onList := onList[list[i] := false];
      list := list[..i] + list[i + 1..];
    }

    /** The list part of enqueue_entity. */
    method EnqueueEntity(q: nat)
      requires Valid() && Busy() && sh.IsQueue(q) && MayLink(sh, tmpAlone, q)
      modifies `list, `onList, `tmpAlone, `running
      ensures Valid() && Busy() && Reached(sh, list, tmpAlone, q)
      ensures running == old(running)[q := old(running[q]) + 1]
      ensures forall x :: x in list <==> x in old(list) || x == q
      ensures old(running[q]) > 0 ==> list == old(list) && tmpAlone == Head
    {
      hide Ordered;
      running := running[q := running[q] + 1];
      if running[q] == 1 { ListAddLeaf(q); }
      Reaches(sh, list, tmpAlone, q);
    }

    /** The walk of enqueue_task_fair from queue q, with `throttled` as found at each level. If
        it is not cut short by a throttled queue, nothing stays unconnected; in general
        nothing does if and only if the last queue reached has a listed parent or none. */
    method EnqueueTask(q: nat, throttled: seq<bool>) returns (top: nat)
      requires Valid() && Busy() && sh.IsQueue(q) && tmpAlone == Head && |throttled| == |sh.entity|
      modifies `list, `onList, `tmpAlone, `running
      ensures Valid() && Busy() && top == Top(sh, throttled, old(running), q)
      ensures tmpAlone == Head <==> top == 0 || sh.Parent(top) in old(list)
      ensures !throttled[top] ==> tmpAlone == Head
      ensures Walked(sh, q, top, old(running), running, old(list), list)
    {
      hide Inv, Walked, MayLink, Shape.WellFormed, Shape.IsAncestorOrSelf, Reached, Top;
      top := q;
      var onRq := running[q] > 0;
      EnqueueFirst(q);
      while !throttled[top] && !onRq && top != 0
        invariant Valid() && Busy() && Walking(q, top, old(running), old(list))
        invariant onRq == (old(running)[top] > 0) && (onRq ==> tmpAlone == Head)
        invariant Top(sh, throttled, old(running), top) == Top(sh, throttled, old(running), q)
        decreases top
      {
        TopStep(sh, throttled, old(running), top);
        onRq := EnqueueParent(q, top, old(running), old(list));
        top := sh.Parent(top);
      }
      TopHere(sh, throttled, old(running), top);
      ReachedMeans(sh, list, tmpAlone, top);
      if top > 0 { NotAbove(sh, q, top, old(running), running, old(list), list); }
    }

    ghost predicate Walking(q: nat, top: nat, r: seq<nat>, l: seq<nat>)
      reads this
    {
      && sh.WellFormed() && sh.IsQueue(q) && sh.IsQueue(top) && sh.IsAncestorOrSelf(top, q)
      && Reached(sh, list, tmpAlone, top) && Walked(sh, q, top, r, running, l, list)
    }

    method EnqueueFirst(q: nat)
      requires Valid() && Busy() && sh.IsQueue(q) && tmpAlone == Head
      modifies `list, `onList, `tmpAlone, `running
      ensures Valid() && Busy() && Walking(q, q, old(running), old(list))
      ensures old(running[q]) > 0 ==> tmpAlone == Head
    {
      assert sh.WellFormed() && sh.IsAncestorOrSelf(q, q);
      hide Inv, Walked, Shape.WellFormed, Reached;
      EnqueueEntity(q);
      WalkStart(sh, q, old(running), running, old(list), list);
    }

    /** One step up from queue t of a walk that began at q, with counts r and list l. */
    method EnqueueParent(ghost q: nat, t: nat, ghost r: seq<nat>, ghost l: seq<nat>) returns (onRq: bool)
      requires Valid() && Busy() && Walking(q, t, r, l) && t > 0
      modifies `list, `onList, `tmpAlone, `running
      ensures Valid() && Busy() && Walking(q, sh.Parent(t), r, l)
      ensures onRq == (r[sh.Parent(t)] > 0) && (onRq ==> tmpAlone == Head)
    {
      hide Inv, Walked, MayLink, Reached, Shape.WellFormed, Shape.IsAncestorOrSelf;
      var p := sh.Parent(t);
      ReachedMeans(sh, list, tmpAlone, t);
      onRq := running[p] > 0;
      EnqueueEntity(p);
      WalkStep(sh, q, t, r, old(running), running, l, old(list), list);
    }

    method DequeueEntity(q: nat)
      requires Valid() && Busy() && sh.IsQueue(q) && running[q] > 0
      modifies `running
      ensures Valid() && Busy() && running == old(running)[q := old(running[q]) - 1]
    {
      running := running[q := running[q] - 1];
    }

    /** The loop of update_blocked_averages; `spent` are the queues whose sums are all 0. */
    method Sweep(spent: seq<bool>, throttled: seq<bool>)
      requires sh.WellFormed() && Flagged() && |running| == |spent| == |throttled| == |onList|
      modifies `list, `onList
      ensures Flagged() && list == Kept(old(list), Gone(sh, running, spent, throttled))
    {
      hide Distinct, Nesting, Kept;
      ghost var gone := Gone(sh, running, spent, throttled);
      var i := 0;
      assert list[0..] == list && list[..0] == [];
      while i < |list|
        invariant i <= |list| && Flagged()
        invariant Kept(old(list), gone) == list[..i] + Kept(list[i..], gone)
        decreases |list| - i
      {
        KeptHead(list, i, gone);
        if Nesting(sh, throttled, list[i]) == 0 && running[list[i]] == 0 && spent[list[i]] {
          ghost var before := list;
          ListDelLeaf(i);
          assert list[i..] == before[i + 1..] && list[..i] == before[..i];
        } else {
          assert list[..i + 1] == list[..i] + [list[i]];
          i := i + 1;
        }
      }
      KeptAll(list, gone);
    }

    /** update_blocked_averages leaves exactly the queues that are not gone, in their order; `spent`
        is what it finds of the sums of each queue when it comes to it, which is once. */
    method UpdateBlockedAverages(spent: seq<bool>, throttled: seq<bool>)
      requires Valid() && Busy() && tmpAlone == Head && |spent| == |throttled| == |sh.entity|
      modifies `list, `onList
      ensures list == Kept(old(list), Gone(sh, running, spent, throttled)) && |onList| == |sh.entity|
      ensures forall q: nat :: q < |running| && running[q] > 0 ==> q in list
      ensures Valid() <==> ChildrenFollow(sh, old(list), running, spent, throttled)
    {
      assert Within(list, |sh.entity|);
      assert Flagged() by { OrderedDistinct(sh, list); }
      hide Inv, Kept, Nesting;
      SweepKeepsIff(sh, list, running, spent, throttled);
      KeptMembers(list, Gone(sh, running, spent, throttled));
      Sweep(spent, throttled);
    }
  }

  // ---- Runs with throttling ----

  /** The root 0, a group 1 below it and a group 2 below that. */
  const Chain := Shape([0, 1], [1, 2], [0, 0, 1])

  lemma ChainTree()
    ensures Chain.WellFormed() && Chain.Parent(1) == 0 && Chain.Parent(2) == 1
    ensures forall x: nat, y: nat :: x <= y <= 2 ==> Chain.IsAncestorOrSelf(x, y)
  {
    assert Chain.WellFormed();
    assert forall x: nat :: Chain.IsAncestorOrSelf(x, 0) <==> x == 0;
    assert forall x: nat :: Chain.IsAncestorOrSelf(x, 1) <==> x == 1 || Chain.IsAncestorOrSelf(x, 0);
    assert forall x: nat :: Chain.IsAncestorOrSelf(x, 2) <==> x == 2 || Chain.IsAncestorOrSelf(x, 1);
  }

  lemma ChainWalked(r: seq<nat>, l: seq<nat>)
    requires Chain.WellFormed() && Walked(Chain, 2, 0, [0, 0, 0], r, [], l)
    ensures r == [1, 1, 1] && 0 in l && 1 in l && 2 in l
  {
    ChainTree();
    assert OnPath(Chain, 2, 0, 0) && OnPath(Chain, 2, 0, 1) && OnPath(Chain, 2, 0, 2);
  }

  lemma ChainNesting()
    ensures Chain.WellFormed()
    ensures var throttled := [false, false, true];
      Nesting(Chain, throttled, 0) == 0 && Nesting(Chain, throttled, 1) == 0 && Nesting(Chain, throttled, 2) == 1
  {
    ChainTree();
  }

  lemma TopOfChain(running: seq<nat>)
    requires running == [0, 0, 0]
    ensures Chain.WellFormed() && Top(Chain, [false, false, false], running, 2) == 0
  {
    ChainTree();
    var none := [false, false, false];
    assert Top(Chain, none, running, 0) == 0;
    assert Top(Chain, none, running, 1) == 0;
  }

  /** A walk cut short by the throttled queue 2 leaves it unconnected: its parent is off the list. */
  method WalkCutShort() returns (l: LeafList)
    ensures l.tmpAlone != Head
  {
    ChainTree();
    l := new LeafList(Chain);
    var top := l.EnqueueTask(2, [false, false, true]);
  }

  /** A sweep that deletes a queue above a throttled one: a task is queued below group 2, which is
      then throttled, so that the queues above it are empty; once their sums are spent they go. */
  method SweepLosesParent() returns (l: LeafList)
    ensures Chain.WellFormed() && 2 in l.list && Chain.Parent(2) !in l.list
  {
    hide Inv, Walked, Top, Nesting, Shape.WellFormed, Shape.IsAncestorOrSelf;
    ChainTree();
    l := new LeafList(Chain);
    assert l.running == [0, 0, 0];
    TopOfChain(l.running);
    var top := l.EnqueueTask(2, [false, false, false]);
    ChainWalked(l.running, l.list);
    l.DequeueEntity(1);
    l.DequeueEntity(0);
    var spent, throttled := [true, true, true], [false, false, true];
    ChainNesting();
    ghost var gone := Gone(Chain, l.running, spent, throttled);
    assert gone[1] && !gone[2];
    assert Within(l.list, |gone|) by { ListedWithin(Chain, l.list, l.tmpAlone); }
    KeptMembers(l.list, gone);
    l.UpdateBlockedAverages(spent, throttled);
  }

  lemma ListedWithin(sh: Shape, list: seq<nat>, alone: Place)
    requires Inv(sh, list, alone)
    ensures Within(list, |sh.entity|)
  {
  }
}
