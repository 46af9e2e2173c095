/** The time-ordered tree of one run queue: wrapping 64-bit virtual time, the cached leftmost
    entity, the entity kept out of the tree while it runs, and the choice of the next one. */
module Timeline {

  import opened Wrap64
  import opened Seqs

  const NoEntity := -1

  predicate Before(a: U64, b: U64) { Diff(a, b) < 0 }

  function MaxVruntime(m: U64, v: U64): U64 { if Diff(v, m) > 0 then v else m }

  function MinVruntime(m: U64, v: U64): U64 { if Diff(v, m) < 0 then v else m }

  /** Position of v in the half range that starts at base. */
  function Rel(base: U64, v: U64): (r: int)
    ensures 0 <= r < TWO64
  {
    (v - base) % TWO64
  }

  /** One step of min_vruntime. */
  predicate Forward(m: U64, m': U64) { Diff(m', m) >= 0 }

  predicate InWindow(base: U64, v: U64) { Rel(base, v) < HALF }

  /** Inside a window wrapping time is ordinary time. */
  lemma WindowOrder(base: U64, a: U64, b: U64)
    requires InWindow(base, a) && InWindow(base, b)
    ensures Diff(a, b) == Rel(base, a) - Rel(base, b)
    ensures Before(a, b) <==> Rel(base, a) < Rel(base, b)
  {
    var k := (a - base) / TWO64 - (b - base) / TWO64;
    assert a - b == Rel(base, a) - Rel(base, b) + k * TWO64;
    assert -1 <= (a - base) / TWO64 <= 0 && -1 <= (b - base) / TWO64 <= 0;
  }

  // ---- Trees ----

  datatype Tree = Leaf | Node(left: Tree, entity: nat, right: Tree)

  function InOrder(t: Tree): seq<nat> {
    match t
    case Leaf => []
    case Node(l, e, r) => InOrder(l) + [e] + InOrder(r)
  }

  function Size(t: Tree): (n: nat)
    ensures n == |InOrder(t)|
  {
    match t
    case Leaf => 0
    case Node(l, _, r) => Size(l) + 1 + Size(r)
  }

  /** How a + [x] + b, cut into p + q, was cut. */
  lemma CutLeft(a: seq<nat>, x: nat, b: seq<nat>, p: seq<nat>, q: seq<nat>)
    requires a + [x] + b == p + q && |p| <= |a|
    ensures a == p + a[|p|..] && q == a[|p|..] + [x] + b
  {
    var s := p + q;
    assert p == s[..|p|] && q == s[|p|..];
  }

  lemma CutRight(a: seq<nat>, x: nat, b: seq<nat>, p: seq<nat>, q: seq<nat>)
    requires a + [x] + b == p + q && |p| > |a|
    ensures p == a + [x] + p[|a| + 1..] && b == p[|a| + 1..] + q
  {
    var s := p + q;
    assert p == s[..|p|] && q == s[|p|..];
    assert b == s[|a| + 1..];
  }

  lemma Regroup(a: seq<nat>, b: seq<nat>, c: seq<nat>, d: seq<nat>)
    ensures a + b + (c + d) == a + (b + c) + d == (a + b + c) + d
  {
  }

  /** Linking a new node at an in-order position (before any recolouring, which keeps the order). */
  function InsertAt(t: Tree, pos: nat, e: nat): Tree
    requires pos <= Size(t)
  {
    match t
    case Leaf => Node(Leaf, e, Leaf)
    case Node(l, x, r) =>
      if pos <= Size(l) then Node(InsertAt(l, pos, e), x, r)
      else Node(l, x, InsertAt(r, pos - Size(l) - 1, e))
  }

  lemma {:induction false} InsertInOrder(t: Tree, p: seq<nat>, e: nat, q: seq<nat>)
    requires InOrder(t) == p + q
    ensures |p| <= Size(t) && InOrder(InsertAt(t, |p|, e)) == p + [e] + q
  {
    match t
    case Leaf =>
    case Node(l, x, r) =>
      var a, b := InOrder(l), InOrder(r);
      if |p| <= |a| {
        CutLeft(a, x, b, p, q);
        InsertInOrder(l, p, e, a[|p|..]);
        Regroup(p + [e], a[|p|..], [x], b);
        Regroup(p, [e], a[|p|..] + [x], b);
      } else {
        CutRight(a, x, b, p, q);
        InsertInOrder(r, p[|a| + 1..], e, q);
        Regroup(a + [x], p[|a| + 1..], [e], q);
      }
  }

  function Join(l: Tree, r: Tree): (t: Tree)
    ensures InOrder(t) == InOrder(l) + InOrder(r)
  {
    match l
    case Leaf => r
    case Node(ll, x, lr) => Node(ll, x, Join(lr, r))
  }

  function EraseAt(t: Tree, pos: nat): Tree
    requires pos < Size(t)
  {
    match t
    case Node(l, x, r) =>
      if pos < Size(l) then Node(EraseAt(l, pos), x, r)
      else if pos == Size(l) then Join(l, r)
      else Node(l, x, EraseAt(r, pos - Size(l) - 1))
  }

  lemma {:induction false} EraseInOrder(t: Tree, p: seq<nat>, e: nat, q: seq<nat>)
    requires InOrder(t) == p + [e] + q
    ensures |p| < Size(t) && InOrder(EraseAt(t, |p|)) == p + q
  {
    match t
    case Node(l, x, r) =>
      var a, b := InOrder(l), InOrder(r);
      Regroup([], p, [e], q);
      if |p| < |a| {
        CutLeft(a, x, b, p + [e], q);
        EraseInOrder(l, p, e, a[|p| + 1..]);
        Regroup(p, a[|p| + 1..], [x], b);
      } else if |p| == |a| {
        assert (p + [e] + q)[..|a|] == p && (a + [x] + b)[..|a|] == a;
        assert (p + [e] + q)[|a| + 1..] == q && (a + [x] + b)[|a| + 1..] == b;
      } else {
        CutRight(a, x, b, p, [e] + q);
        EraseInOrder(r, p[|a| + 1..], e, q);
        Regroup(a, [x], p[|a| + 1..], q);
      }
  }

  // ---- Ordered sequences of entities ----

  predicate Ordered(s: seq<nat>, v: seq<U64>)
    requires Within(s, |v|)
  {
    forall i, j :: 0 <= i < j < |s| ==> !Before(v[s[j]], v[s[i]])
  }

  predicate Windowed(s: seq<nat>, v: seq<U64>, base: U64)
    requires Within(s, |v|)
  {
    forall i :: 0 <= i < |s| ==> InWindow(base, v[s[i]])
  }

  /** None of the first k entities of s is after e. */
  predicate NoneAfter(s: seq<nat>, v: seq<U64>, e: nat, k: nat)
    requires Within(s, |v|) && e < |v| && k <= |s|
  {
    forall i :: 0 <= i < k ==> !Before(v[e], v[s[i]])
  }

  /** All entities of s from place k are after e. */
  predicate AllAfter(s: seq<nat>, v: seq<U64>, e: nat, k: nat)
    requires Within(s, |v|) && e < |v| && k <= |s|
  {
    forall i :: k <= i < |s| ==> Before(v[e], v[s[i]])
  }

  /** e stands behind everything not later than it and in front of everything later:
      equal keys are in order of arrival. */
  predicate Entered(s: seq<nat>, t: seq<nat>, v: seq<U64>, e: nat, pos: nat)
    requires Within(s, |v|) && e < |v|
  {
    pos <= |s| && t == s[..pos] + [e] + s[pos..] && NoneAfter(s, v, e, pos) && AllAfter(s, v, e, pos)
  }

  /** Going right at an entry that is not after e: nothing to its left is after e. */
  lemma GoRight(s: seq<nat>, v: seq<U64>, base: U64, e: nat, mid: nat)
    requires Within(s, |v|) && e < |v| && mid < |s| && Ordered(s, v)
    requires Windowed(s, v, base) && InWindow(base, v[e]) && !Before(v[e], v[s[mid]])
    ensures NoneAfter(s, v, e, mid + 1)
  {
    hide Before, InWindow, Rel;
    forall i | 0 <= i < mid
      ensures !Before(v[e], v[s[i]])
    {
      WindowOrder(base, v[e], v[s[i]]);
      WindowOrder(base, v[s[mid]], v[s[i]]);
      WindowOrder(base, v[e], v[s[mid]]);
    }
  }

  lemma GoLeft(s: seq<nat>, v: seq<U64>, base: U64, e: nat, mid: nat)
    requires Within(s, |v|) && e < |v| && mid < |s| && Ordered(s, v)
    requires Windowed(s, v, base) && InWindow(base, v[e]) && Before(v[e], v[s[mid]])
    ensures AllAfter(s, v, e, mid)
  {
    hide Before, InWindow, Rel;
    forall i | mid < i < |s|
      ensures Before(v[e], v[s[i]])
    {
      WindowOrder(base, v[e], v[s[i]]);
      WindowOrder(base, v[s[i]], v[s[mid]]);
      WindowOrder(base, v[e], v[s[mid]]);
    }
  }

  lemma EnteredOrdered(s: seq<nat>, t: seq<nat>, v: seq<U64>, base: U64, e: nat, pos: nat)
    requires Within(s, |v|) && e < |v| && Ordered(s, v) && Entered(s, t, v, e, pos)
    requires Windowed(s, v, base) && InWindow(base, v[e])
    ensures Within(t, |v|) && Ordered(t, v)
  {
    hide Before, InWindow, Rel;
    forall i, j | 0 <= i < j < |t|
      ensures !Before(v[t[j]], v[t[i]])
    {
      WindowOrder(base, v[t[i]], v[t[j]]);
      WindowOrder(base, v[t[j]], v[t[i]]);
    }
  }

  lemma Inserted(s: seq<nat>, t: seq<nat>, e: nat, pos: nat, n: nat)
    requires pos <= |s| && t == s[..pos] + [e] + s[pos..] && Within(s, n) && e < n
    ensures Within(t, n) && First(t) == if pos == 0 then e else First(s)
    ensures forall x :: x in t <==> x in s || x == e
    ensures Distinct(s) && e !in s ==> Distinct(t)
  {
    forall x | x in s ensures x in t {
      var i :| 0 <= i < |s| && s[i] == x;
      assert t[if i < pos then i else i + 1] == x;
    }
    assert t[pos] == e;
  }

  /** Taking one entity out of a sequence that holds it once. */
  lemma Removed(s: seq<nat>, e: nat, pos: nat, v: seq<U64>)
    requires pos < |s| && s[pos] == e && Distinct(s) && Within(s, |v|)
    ensures var t := s[..pos] + s[pos + 1..];
      && Within(t, |v|) && Distinct(t) && (Ordered(s, v) ==> Ordered(t, v))
      && (forall x :: x in t <==> x in s && x != e)
      && First(t) == if pos == 0 then First(s[1..]) else First(s)
  {
    hide Before;
    var t := s[..pos] + s[pos + 1..];
    Without(s, pos);
    assert forall i :: 0 <= i < |t| ==> t[i] == s[if i < pos then i else i + 1];
  }

  /** s without e, the rest in its order. */
  function Minus(s: seq<nat>, e: nat): seq<nat> {
    if e in s then
      var k := IndexOf(s, e);
      s[..k] + s[k + 1..]
    else s
  }

  // ---- Order of arrival ----

  /** Equal keys stand in the order in which they were put into the tree; `arrival` numbers that. */
  predicate ArrivalOrder(s: seq<nat>, v: seq<U64>, arrival: seq<nat>)
    requires Within(s, |v|) && |arrival| == |v|
  {
    forall i, j :: 0 <= i < j < |s| && v[s[i]] == v[s[j]] ==> arrival[s[i]] < arrival[s[j]]
  }

  predicate Stamped(s: seq<nat>, arrival: seq<nat>, ticks: nat)
    requires Within(s, |arrival|)
  {
    forall i :: 0 <= i < |s| ==> arrival[s[i]] < ticks
  }

  lemma EnteredArrival(s: seq<nat>, t: seq<nat>, v: seq<U64>, e: nat, pos: nat, arrival: seq<nat>, ticks: nat)
    requires Within(s, |v|) && e < |v| == |arrival| && Entered(s, t, v, e, pos) && e !in s
    requires ArrivalOrder(s, v, arrival) && Stamped(s, arrival, ticks)
    ensures Within(t, |v|) && ArrivalOrder(t, v, arrival[e := ticks]) && Stamped(t, arrival[e := ticks], ticks + 1)
  {
    hide Diff;
    var n := arrival[e := ticks];
    DiffSelf(v[e]);
    forall i | 0 <= i < |t| ensures t[i] == if i < pos then s[i] else if i == pos then e else s[i - 1] {}
    forall i | 0 <= i < |s| ensures s[i] != e && n[s[i]] == arrival[s[i]] { assert s[i] in s; }
    forall i | pos <= i < |s| ensures v[s[i]] != v[e] { assert Before(v[e], v[s[i]]); }
    forall i, j | 0 <= i < j < |t| && v[t[i]] == v[t[j]] ensures n[t[i]] < n[t[j]] {}
  }

  lemma MinusArrival(s: seq<nat>, v: seq<U64>, e: nat, arrival: seq<nat>, ticks: nat)
    requires Within(s, |v|) && |v| == |arrival| && ArrivalOrder(s, v, arrival) && Stamped(s, arrival, ticks)
    ensures Within(Minus(s, e), |v|) && ArrivalOrder(Minus(s, e), v, arrival) && Stamped(Minus(s, e), arrival, ticks)
  {
    hide ArrivalOrder, Stamped;
    if e in s { CutArrival(s, v, IndexOf(s, e), arrival, ticks); }
  }

  lemma CutArrival(s: seq<nat>, v: seq<U64>, k: nat, arrival: seq<nat>, ticks: nat)
    requires Within(s, |v|) && |v| == |arrival| && ArrivalOrder(s, v, arrival) && Stamped(s, arrival, ticks) && k < |s|
    ensures var t := s[..k] + s[k + 1..];
      Within(t, |v|) && ArrivalOrder(t, v, arrival) && Stamped(t, arrival, ticks)
  {
    var t := s[..k] + s[k + 1..];
    forall i | 0 <= i < |t| ensures t[i] == s[if i < k then i else i + 1] {}
    forall i, j | 0 <= i < j < |t| && v[t[i]] == v[t[j]] ensures arrival[t[i]] < arrival[t[j]] {
      var i', j' := if i < k then i else i + 1, if j < k then j else j + 1;
      assert t[i] == s[i'] && t[j] == s[j'];
    }
  }

  lemma ArrivalFrame(s: seq<nat>, v: seq<U64>, v': seq<U64>, arrival: seq<nat>)
    requires Within(s, |v|) && |v| == |v'| == |arrival| && ArrivalOrder(s, v, arrival)
    requires forall i :: 0 <= i < |s| ==> v'[s[i]] == v[s[i]]
    ensures ArrivalOrder(s, v', arrival)
  {
  }

  function First(s: seq<nat>): int { if s == [] then NoEntity else s[0] }

  /** The tree s holds exactly the queued entities but the current one, each once. */
  ghost predicate Holds(s: seq<nat>, on: seq<bool>, curr: int) {
    && (curr == NoEntity || 0 <= curr < |on|)
    && Within(s, |on|) && Distinct(s)
    && (forall e :: 0 <= e < |on| ==> (e in s <==> on[e] && e != curr))
  }

  lemma HoldsAdd(s: seq<nat>, t: seq<nat>, on: seq<bool>, curr: int, e: nat, pos: nat)
    requires Holds(s, on, curr) && e < |on| && e !in s
    requires pos <= |s| && t == s[..pos] + [e] + s[pos..]
    ensures e != curr ==> Holds(t, on[e := true], curr)
    ensures e == curr && on[e] ==> Holds(t, on, NoEntity)
  {
    Inserted(s, t, e, pos, |on|);
  }

  lemma HoldsDrop(s: seq<nat>, t: seq<nat>, on: seq<bool>, curr: int, e: nat)
    requires Holds(s, on, curr) && e < |on| && e in s
    requires Within(t, |on|) && Distinct(t) && forall x :: x in t <==> x in s && x != e
    ensures Holds(t, on[e := false], curr)
    ensures curr == NoEntity ==> Holds(t, on, e)
  {
  }

  /** Switching the current entity, which is not in the tree, changes nothing there. */
  lemma HoldsCurr(s: seq<nat>, on: seq<bool>, curr: int, b: bool)
    requires Holds(s, on, curr) && curr != NoEntity
    ensures Holds(s, on[curr := b], curr) && (!on[curr] ==> Holds(s, on, NoEntity))
  {
  }

  lemma OrderedFrame(s: seq<nat>, v: seq<U64>, e: nat, x: U64)
    requires Within(s, |v|) && e < |v| && e !in s && Ordered(s, v)
    ensures Ordered(s, v[e := x])
  {
    hide Before;
    forall i, j | 0 <= i < j < |s|
      ensures !Before(v[e := x][s[j]], v[e := x][s[i]])
    {
      assert s[i] in s && s[j] in s;
    }
  }

  lemma Parts(s: seq<nat>, lo: nat, hi: nat, a: seq<nat>, x: nat, b: seq<nat>)
    requires lo <= hi <= |s| && s[lo..hi] == a + [x] + b
    ensures hi == lo + |a| + 1 + |b| && s[lo + |a|] == x
    ensures s[lo..lo + |a|] == a && s[lo + |a| + 1..hi] == b
  {
    assert s[lo..hi][|a|] == x;
    assert s[lo..lo + |a|] == s[lo..hi][..|a|];
    assert s[lo + |a| + 1..hi] == s[lo..hi][|a| + 1..];
  }

  /** The walk of __enqueue_entity from the root to the link where e belongs: `pos` is the
      in-order place of that link, `leftmost` whether the walk only ever went left. The new
      key must lie in the window of the keys already there for the place to be the right one. */
  method FindLink(tree: Tree, v: seq<U64>, e: nat, ghost base: U64) returns (pos: nat, leftmost: bool)
    requires Within(InOrder(tree), |v|) && e < |v|
    requires Ordered(InOrder(tree), v) && Windowed(InOrder(tree), v, base)
    ensures pos <= Size(tree) && (leftmost <==> pos == 0)
    ensures InWindow(base, v[e]) ==> NoneAfter(InOrder(tree), v, e, pos) && AllAfter(InOrder(tree), v, e, pos)
  {
    hide Before, InWindow, Rel;
    var link := tree;
    pos, leftmost := 0, true;
    ghost var s, end, w := InOrder(tree), Size(tree), InWindow(base, v[e]);
    while link.Node?
      invariant pos <= end <= |s| && s[pos..end] == InOrder(link)
      invariant w ==> NoneAfter(s, v, e, pos) && AllAfter(s, v, e, end)
      invariant leftmost <==> pos == 0
      decreases link
    {
      var entry := link.entity;
      ghost var mid := pos + Size(link.left);
      Parts(s, pos, end, InOrder(link.left), entry, InOrder(link.right));
      if Before(v[e], v[entry]) {
        if w { GoLeft(s, v, base, e, mid); }
        end := mid;
        link := link.left;
      } else {
        if w { GoRight(s, v, base, e, mid); }
        pos := pos + Size(link.left) + 1;
        link := link.right;
        leftmost := false;
      }
    }
  }

  lemma WindowedFrame(s: seq<nat>, v: seq<U64>, v': seq<U64>, base: U64)
    requires Within(s, |v|) && |v'| == |v| && Windowed(s, v, base)
    requires forall i :: 0 <= i < |s| ==> v'[s[i]] == v[s[i]]
    ensures Windowed(s, v', base)
  {
    hide InWindow;
  }

  // ---- Choosing the next entity ----

  /** `gran[b]` is wakeup_gran of b: -1 if a is not later than b, 0 if later by at most it. */
  function WakeupPreempt(v: seq<U64>, gran: seq<nat>, a: nat, b: nat): int
    requires a < |v| && b < |v| == |gran|
  {
    var vdiff := Diff(v[a], v[b]);
    if vdiff <= 0 then -1 else if vdiff > gran[b] then 1 else 0
  }

  /** The earlier of the first queued entity and the current one, if any. */
  function Earlier(v: seq<U64>, first: int, cur: int): int
    requires -1 <= first < |v| && -1 <= cur < |v|
  {
    if first == NoEntity || (cur != NoEntity && Before(v[cur], v[first])) then cur else first
  }

  predicate IsLeast(s: seq<nat>, v: seq<U64>, cur: int, l: nat)
    requires Within(s, |v|) && -1 <= cur < |v|
  {
    && l < |v| && (l in s || l == cur)
    && (forall i :: 0 <= i < |s| ==> !Before(v[s[i]], v[l]))
    && (cur != NoEntity ==> !Before(v[cur], v[l]))
  }

  lemma EarlierIsLeast(s: seq<nat>, v: seq<U64>, cur: int, base: U64)
    requires Within(s, |v|) && -1 <= cur < |v| && Ordered(s, v) && Windowed(s, v, base)
    requires cur != NoEntity ==> InWindow(base, v[cur])
    requires s != [] || cur != NoEntity
    ensures IsLeast(s, v, cur, Earlier(v, First(s), cur))
  {
    hide Before, InWindow, Rel;
    var l := Earlier(v, First(s), cur);
    WindowOrder(base, v[l], v[l]);
    forall i | 0 <= i < |s|
      ensures !Before(v[s[i]], v[l])
    {
      WindowOrder(base, v[s[i]], v[s[0]]);
      WindowOrder(base, v[s[i]], v[l]);
      WindowOrder(base, v[l], v[s[0]]);
      WindowOrder(base, v[s[0]], v[l]);
    }
    if cur != NoEntity && s != [] {
      WindowOrder(base, v[cur], v[s[0]]);
      WindowOrder(base, v[cur], v[l]);
    }
  }

  lemma StaysForward(m: U64)
    ensures Forward(m, m)
  {
  }

  /** What second chooses is the least of all but `left`. */
  lemma SecondLeast(s: seq<nat>, v: seq<U64>, cur: int, base: U64, left: nat, second: int)
    requires Within(s, |v|) && -1 <= cur < |v| && Ordered(s, v) && Windowed(s, v, base)
    requires cur != NoEntity ==> InWindow(base, v[cur])
    requires (s != [] || cur != NoEntity) && Distinct(s) && cur !in s
    requires left == Earlier(v, First(s), cur)
    requires second == if left == cur then First(s) else Earlier(v, First(s[1..]), cur)
    ensures -1 <= second < |v| && second != left && (second != NoEntity ==> second in s || second == cur)
    ensures second == NoEntity ==> forall x :: x in s || x == cur ==> x == left || x == NoEntity
    ensures second != NoEntity ==>
      && left < |v| && InWindow(base, v[second]) && InWindow(base, v[left])
      && forall x: nat :: (x in s || x == cur) && x != left ==> InWindow(base, v[x]) && !Before(v[x], v[second])
  {
    hide Before, InWindow, Rel;
    if second != NoEntity {
      forall x: nat | (x in s || x == cur) && x != left
        ensures InWindow(base, v[x]) && !Before(v[x], v[second])
      {
        assert left == cur || left == s[0];
        WindowOrder(base, v[x], v[second]);
        if x in s {
          var i := IndexOf(s, x);
          WindowOrder(base, v[x], v[s[if left == cur then 0 else if |s| > 1 then 1 else 0]]);
          if left != cur && |s| > 1 {
            WindowOrder(base, v[s[1]], v[second]);
            WindowOrder(base, v[second], v[s[1]]);
          }
        } else if |s| > 1 {
          WindowOrder(base, v[cur], v[s[1]]);
        }
      }
    }
  }

  /** If the earliest entity but `left` is more than gran[left] beyond it, so are all others. */
  lemma SecondFar(s: seq<nat>, v: seq<U64>, gran: seq<nat>, cur: int, base: U64, left: nat, second: int)
    requires Within(s, |v|) && |gran| == |v| && -1 <= cur < |v| && Ordered(s, v) && Windowed(s, v, base)
    requires cur != NoEntity ==> InWindow(base, v[cur])
    requires (s != [] || cur != NoEntity) && Distinct(s) && cur !in s
    requires left == Earlier(v, First(s), cur)
    requires second == if left == cur then First(s) else Earlier(v, First(s[1..]), cur)
    ensures -1 <= second < |v|
    ensures second != NoEntity && WakeupPreempt(v, gran, second, left) == 1 ==>
      forall x: nat :: (x in s || x == cur) && x != left ==> Diff(v[x], v[left]) > gran[left]
  {
    hide Before, InWindow, Rel, Ordered, Windowed, Distinct, Earlier;
    SecondLeast(s, v, cur, base, left, second);
    if second != NoEntity && WakeupPreempt(v, gran, second, left) == 1 {
      forall x: nat | (x in s || x == cur) && x != left
        ensures Diff(v[x], v[left]) > gran[left]
      {
        WindowOrder(base, v[x], v[left]);
        WindowOrder(base, v[second], v[left]);
        WindowOrder(base, v[x], v[second]);
      }
    }
  }

  // ---- min_vruntime and the keys of entities that come and go ----

  /** update_min_vruntime: `left` is the first of the tree, `cur` the current entity if still queued. */
  function NextMin(m: U64, v: seq<U64>, left: int, cur: int): U64
    requires -1 <= left < |v| && -1 <= cur < |v|
  {
    if left == NoEntity && cur == NoEntity then m
    else MaxVruntime(m, if left == NoEntity then v[cur] else if cur == NoEntity then v[left]
                        else MinVruntime(v[cur], v[left]))
  }

  /** min_vruntime moves exactly when all queued entities are ahead of it, and then to the least. */
  lemma NextMinIs(m: U64, s: seq<nat>, v: seq<U64>, cur: int, base: U64)
    requires Within(s, |v|) && -1 <= cur < |v| && Ordered(s, v) && Windowed(s, v, base) && InWindow(base, m)
    requires cur != NoEntity ==> InWindow(base, v[cur])
    ensures var m' := NextMin(m, v, First(s), cur);
      && (m' != m <==> (s != [] || cur != NoEntity) && forall x: nat :: x in s || x == cur ==> Before(m, v[x]))
      && (m' != m ==> exists x: nat :: x < |v| && IsLeast(s, v, cur, x) && m' == v[x])
  {
    hide InWindow, Rel, Ordered, Windowed;
    if s != [] || cur != NoEntity {
      EarlierIsLeast(s, v, cur, base);
      var l := Earlier(v, First(s), cur);
      assert InWindow(base, v[l]) by { AllWindowed(s, v, base, l); }
      WindowOrder(base, v[l], m);
      WindowOrder(base, m, v[l]);
      if cur != NoEntity && s != [] {
        AllWindowed(s, v, base, s[0]);
        WindowOrder(base, v[cur], v[s[0]]);
        WindowOrder(base, v[s[0]], v[cur]);
        SamePlace(base, v[cur], v[s[0]]);
      }
      forall x: nat | x in s || x == cur ensures Before(m, v[l]) ==> Before(m, v[x]) {
        AllWindowed(s, v, base, x);
        WindowOrder(base, m, v[x]);
        WindowOrder(base, v[x], v[l]);
        LeastNotAfter(s, v, cur, l, x);
      }
    }
  }

  lemma AllWindowed(s: seq<nat>, v: seq<U64>, base: U64, x: nat)
    requires Within(s, |v|) && Windowed(s, v, base)
    ensures x in s ==> x < |v| && InWindow(base, v[x])
  {
    hide InWindow;
    if x in s { var i := IndexOf(s, x); }
  }

  lemma LeastNotAfter(s: seq<nat>, v: seq<U64>, cur: int, l: nat, x: nat)
    requires Within(s, |v|) && -1 <= cur < |v| && IsLeast(s, v, cur, l) && (x in s || x == cur)
    ensures x < |v| && !Before(v[x], v[l])
  {
    hide Before;
    if x in s { var i := IndexOf(s, x); }
  }

  lemma SamePlace(base: U64, a: U64, b: U64)
    ensures Rel(base, a) == Rel(base, b) ==> a == b
  {
  }

  /** A key less min_vruntime, and back. */
  function Relative(k: U64, m: U64): U64 { (k - m) % TWO64 }

  function Absolute(k: U64, m: U64): U64 { (k + m) % TWO64 }

  /** The key an entity takes along, unless it sleeps, when it leaves at min_vruntime m. */
  function LeavingKey(k: U64, m: U64, sleep: bool): U64 { if sleep then k else Relative(k, m) }

  /** The key with which an entity enters: it is renormalised before update_curr, which is when the
      current entity is charged for `ran`, and else after it, when min_vruntime is m'; and a waking
      entity is placed at most `thresh` before m'. */
  function EnteringKey(k: U64, m: U64, m': U64, isCurr: bool, ran: U64, renorm: bool, wakeup: bool, thresh: U64): U64 {
    var k1 := if !renorm then k else Absolute(k, if isCurr then m else m');
    var k2 := if isCurr then Absolute(k1, ran) else k1;
    if wakeup then MaxVruntime(k2, Relative(m', thresh)) else k2
  }

  lemma WrapTwice(k: int, m: int)
    ensures (k % TWO64 + m) % TWO64 == (k + m) % TWO64
  {
  }

  lemma DiffWrapped(a: int, m: U64)
    ensures Diff(a % TWO64, m) == Signed(a - m)
  {
    hide Signed;
    assert (a % TWO64 - m) % TWO64 == (a - m) % TWO64 by { WrapTwice(a, 0 - m as int); }
    SameSigned(a % TWO64 - m, a - m);
  }

  lemma SameSigned(x: int, y: int)
    requires x % TWO64 == y % TWO64
    ensures Signed(x) == Signed(y)
  {
  }

  /** Moving an entity keeps its place relative to min_vruntime, and coming back restores its key. */
  lemma MoveKeepsLag(k: U64, m: U64, m1: U64, m2: U64, thresh: U64)
    ensures var k' := EnteringKey(LeavingKey(k, m, false), m1, m2, false, 0, true, false, thresh);
      Diff(k', m2) == Diff(k, m) && (m2 == m ==> k' == k)
  {
    hide Signed;
    WrapTwice(k - m, m2);
    DiffWrapped(k - m + m2, m2);
  }

  /** A sleeper enters at most `thresh` behind min_vruntime, and nobody moves backwards. */
  lemma SleeperBound(k: U64, m: U64, m': U64, renorm: bool, thresh: U64)
    requires thresh < HALF
    ensures var awake := EnteringKey(k, m, m', false, 0, renorm, false, thresh);
      var k' := EnteringKey(k, m, m', false, 0, renorm, true, thresh);
      && Forward(awake, k') && Diff(Relative(m', thresh), k') <= 0
      && (k' == awake || Diff(k', m') + thresh == 0)
  {
    hide Signed, Absolute;
    DiffWrapped(m' - thresh, m');
    NegativeSigned(thresh);
    StaysForward(Relative(m', thresh));
    StaysForward(EnteringKey(k, m, m', false, 0, renorm, false, thresh));
  }

  lemma NegativeSigned(t: U64)
    requires t < HALF
    ensures Signed(0 - t as int) + t == 0
  {
  }

  /** pick_next_entity: s is the tree in order, cur the current entity if still queued. */
  function Pick(s: seq<nat>, v: seq<U64>, gran: seq<nat>, cur: int, last: int, next: int, skip: int): int
    requires Within(s, |v|) && |gran| == |v| && -1 <= cur < |v| && (s != [] || cur != NoEntity)
    requires -1 <= last < |v| && -1 <= next < |v|
  {
    var left := Earlier(v, First(s), cur);
    var second := if left == cur then First(s) else Earlier(v, First(s[1..]), cur);
    var se0 := if skip == left && second != NoEntity && WakeupPreempt(v, gran, second, left) < 1 then second else left;
    var se1 := if last != NoEntity && WakeupPreempt(v, gran, last, left) < 1 then last else se0;
    if next != NoEntity && WakeupPreempt(v, gran, next, left) < 1 then next else se1
  }

  /** Not further than one wakeup granularity beyond the earliest. */
  predicate Near(v: seq<U64>, gran: seq<nat>, a: int, least: nat)
    requires -1 <= a < |v| && least < |v| == |gran|
  {
    a != NoEntity && WakeupPreempt(v, gran, a, least) < 1
  }

  /** Whoever is picked is at most one wakeup granularity beyond the earliest, `least`: `next`
      before `last` before the earliest. If the earliest is the one to skip, the earliest of the
      others takes its place, unless all others are too far behind. */
  ghost predicate FairPick(s: seq<nat>, v: seq<U64>, gran: seq<nat>, cur: int, last: int, next: int, skip: int,
                           se: int, least: nat)
    requires Within(s, |v|) && |gran| == |v| && -1 <= cur < |v| && -1 <= last < |v| && -1 <= next < |v|
  {
    && IsLeast(s, v, cur, least) && 0 <= se < |v|
    && Diff(v[se], v[least]) <= gran[least]
    && (Near(v, gran, next, least) ==> se == next)
    && (!Near(v, gran, next, least) && Near(v, gran, last, least) ==> se == last)
    && (!Near(v, gran, next, least) && !Near(v, gran, last, least) ==>
          && (se in s || se == cur)
          && (skip != least ==> se == least)
          && (skip == least && se == least ==>
                forall x: nat :: (x in s || x == cur) && x != least ==> Diff(v[x], v[least]) > gran[least])
          && (skip == least && se != least ==>
                forall x: nat :: (x in s || x == cur) && x != least ==> !Before(v[x], v[se])))
  }

  lemma PickMember(s: seq<nat>, v: seq<U64>, gran: seq<nat>, cur: int, last: int, next: int, skip: int,
                   se: int, least: nat)
    requires Within(s, |v|) && |gran| == |v| && -1 <= cur < |v| && -1 <= last < |v| && -1 <= next < |v|
    requires FairPick(s, v, gran, cur, last, next, skip, se, least)
    ensures 0 <= se < |v| && (se in s || se == cur || se == last || se == next)
  {
    hide WakeupPreempt, IsLeast, Diff, Before;
  }

  lemma PickIsFair(s: seq<nat>, v: seq<U64>, gran: seq<nat>, cur: int, last: int, next: int, skip: int, base: U64)
    requires Within(s, |v|) && |gran| == |v| && -1 <= cur < |v| && (s != [] || cur != NoEntity)
    requires -1 <= last < |v| && -1 <= next < |v|
    requires Ordered(s, v) && Windowed(s, v, base) && (cur != NoEntity ==> InWindow(base, v[cur]))
    requires Distinct(s) && cur !in s
    ensures FairPick(s, v, gran, cur, last, next, skip,
                     Pick(s, v, gran, cur, last, next, skip), Earlier(v, First(s), cur))
  {
    hide InWindow, Rel, Ordered, Windowed, Before, Distinct;
    EarlierIsLeast(s, v, cur, base);
    var left := Earlier(v, First(s), cur);
    var second := if left == cur then First(s) else Earlier(v, First(s[1..]), cur);
    SecondLeast(s, v, cur, base, left, second);
    SecondFar(s, v, gran, cur, base, left, second);
    DiffSelf(v[left]);
  }

  lemma DiffSelf(a: U64)
    ensures Diff(a, a) == 0
  {
  }
}
