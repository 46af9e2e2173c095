/** The entities on the way from one entity up to the root, and how far a bottom-up walk climbs. */
module EntityPaths {
  import opened GroupTree
  import opened RunQueueTree

  /** Is x the entity e or a group entity above it? */
  predicate OnWay(sh: Shape, e: nat, x: nat)
    requires sh.WellFormed() && sh.IsEntity(e)
    decreases sh.queue[e]
  {
    x == e || (sh.queue[e] > 0 && OnWay(sh, sh.entity[sh.queue[e]], x))
  }

  /** Does a walk from e that stops at the first throttled queue get past x? */
  predicate Climbed(sh: Shape, throttled: seq<bool>, e: int, x: nat)
    requires sh.WellFormed() && |throttled| == |sh.entity| && (e == NoEntity || sh.IsEntity(e))
    decreases if e == NoEntity then -1 else sh.queue[e]
  {
    && e != NoEntity && !throttled[sh.queue[e]]
    && (x == e || Climbed(sh, throttled, ParentEntity(sh, sh.queue[e]), x))
  }

  /** The number below which the queues of entities not yet passed lie, when se is next. */
  function Mark(sh: Shape, se: int): int
    requires sh.WellFormed() && (se == NoEntity || sh.IsEntity(se))
  {
    if se == NoEntity then -1 else sh.queue[se]
  }

  /** Was x passed on the way from t before se? */
  predicate Passed(sh: Shape, t: nat, se: int, x: nat)
    requires sh.WellFormed() && sh.IsEntity(t) && (se == NoEntity || sh.IsEntity(se))
  {
    sh.IsEntity(x) && OnWay(sh, t, x) && sh.queue[x] > Mark(sh, se)
  }

  ghost predicate Reaching(sh: Shape, t: nat, se: int)
    requires sh.WellFormed() && sh.IsEntity(t)
  {
    se == NoEntity || (sh.IsEntity(se) && OnWay(sh, t, se))
  }

  lemma {:induction false} WayDown(sh: Shape, e: nat, x: nat)
    requires sh.WellFormed() && sh.IsEntity(e) && OnWay(sh, e, x)
    ensures sh.IsEntity(x) && sh.queue[x] <= sh.queue[e] && (sh.queue[x] == sh.queue[e] ==> x == e)
    decreases sh.queue[e]
  {
    if x != e { WayDown(sh, sh.entity[sh.queue[e]], x); }
  }

  /** Of two entities on the way the higher one is on the way from the lower one. */
  lemma {:induction false} WayOrder(sh: Shape, t: nat, a: nat, b: nat)
    requires sh.WellFormed() && sh.IsEntity(t) && OnWay(sh, t, a) && OnWay(sh, t, b)
    ensures sh.IsEntity(a) && sh.IsEntity(b) && (sh.queue[b] <= sh.queue[a] ==> OnWay(sh, a, b))
    decreases sh.queue[t]
  {
    WayDown(sh, t, a);
    WayDown(sh, t, b);
    if a != t && b != t { WayOrder(sh, sh.entity[sh.queue[t]], a, b); }
  }

  lemma {:induction false} WayOn(sh: Shape, t: nat, se: nat)
    requires sh.WellFormed() && sh.IsEntity(t) && OnWay(sh, t, se)
    ensures sh.IsEntity(se) && Reaching(sh, t, ParentEntity(sh, sh.queue[se]))
    decreases sh.queue[t]
  {
    if se != t { WayOn(sh, sh.entity[sh.queue[t]], se); }
    if sh.queue[se] > 0 && se != t { WayUp(sh, t, se); }
  }

  lemma WayUp(sh: Shape, t: nat, se: nat)
    requires sh.WellFormed() && sh.IsEntity(t) && OnWay(sh, t, se) && se != t && sh.IsEntity(se) && sh.queue[se] > 0
    requires OnWay(sh, sh.entity[sh.queue[t]], sh.entity[sh.queue[se]])
    ensures OnWay(sh, t, sh.entity[sh.queue[se]])
  {
  }

  /** Going on from se passes exactly se as well. */
  lemma PassedNext(sh: Shape, t: nat, se: nat, x: nat)
    requires sh.WellFormed() && sh.IsEntity(t) && Reaching(sh, t, se)
    ensures Reaching(sh, t, ParentEntity(sh, sh.queue[se]))
    ensures Passed(sh, t, ParentEntity(sh, sh.queue[se]), x) <==> Passed(sh, t, se, x) || x == se
    ensures !Passed(sh, t, se, se)
  {
    WayOn(sh, t, se);
    if sh.IsEntity(x) && OnWay(sh, t, x) && sh.queue[x] <= sh.queue[se] {
      WayOrder(sh, t, se, x);
      if x != se { WayDown(sh, sh.entity[sh.queue[se]], x); }
    }
  }

  lemma NonePassed(sh: Shape, t: nat, x: nat)
    requires sh.WellFormed() && sh.IsEntity(t)
    ensures Reaching(sh, t, t) && !Passed(sh, t, t, x)
  {
    if OnWay(sh, t, x) { WayDown(sh, t, x); }
  }

  /** If the queues of all entities passed are not throttled, the walk gets past exactly these and what
      a walk from se gets past. */
  lemma {:induction false} ClimbSplit(sh: Shape, throttled: seq<bool>, t: nat, se: int, x: nat)
    requires sh.WellFormed() && sh.IsEntity(t) && Reaching(sh, t, se) && |throttled| == |sh.entity|
    requires forall y: nat :: Passed(sh, t, se, y) ==> !throttled[sh.queue[y]]
    ensures Climbed(sh, throttled, t, x) <==> Passed(sh, t, se, x) || Climbed(sh, throttled, se, x)
    decreases sh.queue[t]
  {
    NonePassed(sh, t, x);
    if se != t {
      PassedFirst(sh, t, se);
      var p := ParentEntity(sh, sh.queue[t]);
      if p == NoEntity {
        PassedRoot(sh, t, se, x);
      } else {
        forall y: nat ensures Passed(sh, t, se, y) <==> y == t || Passed(sh, p, se, y) { PassedStep(sh, t, se, y); }
        assert Reaching(sh, p, se);
        ClimbSplit(sh, throttled, p, se, x);
      }
    }
  }

  lemma PassedFirst(sh: Shape, t: nat, se: int)
    requires sh.WellFormed() && sh.IsEntity(t) && Reaching(sh, t, se) && se != t
    ensures Passed(sh, t, se, t)
  {
    if se != NoEntity { WayDown(sh, t, se); }
  }

  lemma PassedRoot(sh: Shape, t: nat, se: int, x: nat)
    requires sh.WellFormed() && sh.IsEntity(t) && Reaching(sh, t, se) && se != t && sh.queue[t] == 0
    ensures se == NoEntity && (Passed(sh, t, se, x) <==> x == t)
  {
  }

  lemma PassedStep(sh: Shape, t: nat, se: int, y: nat)
    requires sh.WellFormed() && sh.IsEntity(t) && Reaching(sh, t, se) && se != t && sh.queue[t] > 0
    ensures Passed(sh, t, se, y) <==> y == t || Passed(sh, sh.entity[sh.queue[t]], se, y)
  {
    PassedFirst(sh, t, se);
  }

  // ---- What the walks make of the weights ----

  /** Group entities that were put on, and those the walk from t got past, have their computed share;
      all others keep their weight. */
  ghost predicate Reweighed(sh: Shape, on: seq<bool>, w: seq<nat>, on': seq<bool>, throttled': seq<bool>, w': seq<nat>,
                            t: nat, shares: seq<nat>)
    requires sh.WellFormed() && sh.IsEntity(t) && |throttled'| == |sh.entity|
  {
    && |on| == |w| == |on'| == |w'| == |shares| == |sh.queue|
    && forall x :: sh.IsEntity(x) ==>
         w'[x] == if sh.owner[x] > 0 && ((on'[x] && !on[x]) || (Climbed(sh, throttled', t, x) && !(on[x] && !on'[x])))
                  then shares[x] else w[x]
  }

  ghost predicate Sizes(sh: Shape, on: seq<bool>, throttled: seq<bool>, w: seq<nat>) {
    sh.WellFormed() && |on| == |w| == |sh.queue| && |throttled| == |sh.entity|
  }

  /** The first loop of an enqueue walk from t, about to look at se: what it passed is now on, weighed
      anew, and in no throttled queue. */
  ghost predicate EnterPath(sh: Shape, t: nat, se: int, on0: seq<bool>, w0: seq<nat>, on: seq<bool>,
                            throttled: seq<bool>, w: seq<nat>, shares: seq<nat>)
    requires Sizes(sh, on, throttled, w) && Sizes(sh, on0, throttled, w0) && |shares| == |sh.queue| && sh.IsEntity(t)
  {
    && Reaching(sh, t, se)
    && forall x :: sh.IsEntity(x) ==>
         && (on[x] <==> on0[x] || Passed(sh, t, se, x))
         && (Passed(sh, t, se, x) ==> !on0[x] && !throttled[sh.queue[x]])
         && w[x] == if Passed(sh, t, se, x) && sh.owner[x] > 0 then shares[x] else w0[x]
  }

  lemma EnterPathStart(sh: Shape, t: nat, on: seq<bool>, throttled: seq<bool>, w: seq<nat>, shares: seq<nat>)
    requires Sizes(sh, on, throttled, w) && |shares| == |sh.queue| && sh.IsEntity(t)
    ensures EnterPath(sh, t, t, on, w, on, throttled, w, shares)
  {
    forall x: nat | sh.IsEntity(x) ensures !Passed(sh, t, t, x) { NonePassed(sh, t, x); }
    assert Reaching(sh, t, t);
  }

  lemma EnterPathNext(sh: Shape, t: nat, se: nat, on0: seq<bool>, w0: seq<nat>, on: seq<bool>, throttled: seq<bool>,
                      w: seq<nat>, shares: seq<nat>)
    requires Sizes(sh, on, throttled, w) && Sizes(sh, on0, throttled, w0) && |shares| == |sh.queue| && sh.IsEntity(t)
    requires EnterPath(sh, t, se, on0, w0, on, throttled, w, shares) && !on[se] && !throttled[sh.queue[se]]
    ensures EnterPath(sh, t, ParentEntity(sh, sh.queue[se]), on0, w0, on[se := true], throttled,
                      w[se := if sh.owner[se] > 0 then shares[se] else w[se]], shares)
  {
    PassedNext(sh, t, se, se);
    forall x: nat | sh.IsEntity(x)
      ensures Passed(sh, t, ParentEntity(sh, sh.queue[se]), x) <==> Passed(sh, t, se, x) || x == se
    {
      PassedNext(sh, t, se, x);
    }
  }

  /** A walk from t that goes on counting from se. */
  ghost predicate Handover(sh: Shape, t: nat, se: int, on0: seq<bool>, w0: seq<nat>, on: seq<bool>,
                           throttled: seq<bool>, w: seq<nat>, shares: seq<nat>)
    requires Sizes(sh, on, throttled, w) && Sizes(sh, on0, throttled, w0) && |shares| == |sh.queue| && sh.IsEntity(t)
  {
    && (se == NoEntity || sh.IsEntity(se))
    && forall x: nat :: sh.IsEntity(x) ==>
         && w[x] == (if sh.owner[x] > 0 && on[x] && !on0[x] then shares[x] else w0[x])
         && (!(on[x] && !on0[x]) ==>
               (Climbed(sh, throttled, se, x) <==> Climbed(sh, throttled, t, x) && !(on0[x] && !on[x])))
  }

  lemma EnterHandsOver(sh: Shape, t: nat, se: int, on0: seq<bool>, w0: seq<nat>, on: seq<bool>, throttled: seq<bool>,
                   w: seq<nat>, shares: seq<nat>)
    requires Sizes(sh, on, throttled, w) && Sizes(sh, on0, throttled, w0) && |shares| == |sh.queue| && sh.IsEntity(t)
    requires EnterPath(sh, t, se, on0, w0, on, throttled, w, shares)
    ensures Handover(sh, t, se, on0, w0, on, throttled, w, shares)
  {
    forall x: nat | sh.IsEntity(x)
      ensures Climbed(sh, throttled, t, x) <==> Passed(sh, t, se, x) || Climbed(sh, throttled, se, x)
    {
      ClimbSplit(sh, throttled, t, se, x);
    }
  }

  /** The walk ends at se, which was put on in a queue that is throttled or becomes so. */
  lemma EnterBlocked(sh: Shape, t: nat, se: nat, on0: seq<bool>, w0: seq<nat>, on: seq<bool>, throttled: seq<bool>,
                     w: seq<nat>, shares: seq<nat>)
    requires Sizes(sh, on, throttled, w) && Sizes(sh, on0, throttled, w0) && |shares| == |sh.queue| && sh.IsEntity(t)
    requires EnterPath(sh, t, se, on0, w0, on, throttled, w, shares) && sh.IsEntity(se) && !on[se]
    ensures Handover(sh, t, se, on0, w0, on[se := true], throttled[sh.queue[se] := true],
                     w[se := if sh.owner[se] > 0 then shares[se] else w[se]], shares)
  {
    var thr := throttled[sh.queue[se] := true];
    PassedNext(sh, t, se, se);
    forall x: nat | sh.IsEntity(x) ensures Climbed(sh, thr, t, x) <==> Passed(sh, t, se, x) {
      ClimbSplit(sh, thr, t, se, x);
    }
  }

  /** The first loop of a dequeue walk from t, about to take off se. */
  ghost predicate LeavePath(sh: Shape, t: nat, se: int, on0: seq<bool>, on: seq<bool>, throttled: seq<bool>)
    requires sh.WellFormed() && sh.IsEntity(t) && |on| == |on0| == |sh.queue| && |throttled| == |sh.entity|
  {
    && Reaching(sh, t, se)
    && forall x :: sh.IsEntity(x) ==>
         && (on[x] <==> on0[x] && !Passed(sh, t, se, x))
         && (Passed(sh, t, se, x) ==> on0[x] && !throttled[sh.queue[x]])
  }

  lemma LeavePathStart(sh: Shape, t: nat, on: seq<bool>, throttled: seq<bool>)
    requires sh.WellFormed() && sh.IsEntity(t) && |on| == |sh.queue| && |throttled| == |sh.entity|
    ensures LeavePath(sh, t, t, on, on, throttled)
  {
    forall x: nat | sh.IsEntity(x) ensures !Passed(sh, t, t, x) { NonePassed(sh, t, x); }
    assert Reaching(sh, t, t);
  }

  lemma LeavePathNext(sh: Shape, t: nat, se: nat, on0: seq<bool>, on: seq<bool>, throttled: seq<bool>)
    requires sh.WellFormed() && sh.IsEntity(t) && |on| == |on0| == |sh.queue| && |throttled| == |sh.entity|
    requires LeavePath(sh, t, se, on0, on, throttled) && on[se] && !throttled[sh.queue[se]]
    ensures LeavePath(sh, t, ParentEntity(sh, sh.queue[se]), on0, on[se := false], throttled)
  {
    PassedNext(sh, t, se, se);
    forall x: nat | sh.IsEntity(x)
      ensures Passed(sh, t, ParentEntity(sh, sh.queue[se]), x) <==> Passed(sh, t, se, x) || x == se
    {
      PassedNext(sh, t, se, x);
    }
  }

  lemma LeaveHandsOver(sh: Shape, t: nat, se: int, on0: seq<bool>, on: seq<bool>, throttled: seq<bool>, w: seq<nat>,
                   shares: seq<nat>)
    requires Sizes(sh, on, throttled, w) && Sizes(sh, on0, throttled, w) && |shares| == |sh.queue| && sh.IsEntity(t)
    requires LeavePath(sh, t, se, on0, on, throttled)
    ensures Handover(sh, t, se, on0, w, on, throttled, w, shares)
  {
    forall x: nat | sh.IsEntity(x)
      ensures Climbed(sh, throttled, t, x) <==> Passed(sh, t, se, x) || Climbed(sh, throttled, se, x)
      ensures Climbed(sh, throttled, se, x) ==> !Passed(sh, t, se, x)
    {
      ClimbSplit(sh, throttled, t, se, x);
      if se != NoEntity && Climbed(sh, throttled, se, x) { ClimbedDown(sh, throttled, se, x); }
    }
  }

  lemma {:induction false} ClimbedDown(sh: Shape, throttled: seq<bool>, e: nat, x: nat)
    requires sh.WellFormed() && |throttled| == |sh.entity| && sh.IsEntity(e) && Climbed(sh, throttled, e, x)
    ensures sh.IsEntity(x) && sh.queue[x] <= sh.queue[e] && (sh.queue[x] == sh.queue[e] ==> x == e)
    decreases sh.queue[e]
  {
    if x != e { ClimbedDown(sh, throttled, sh.entity[sh.queue[e]], x); }
  }

  /** The walk ends at se, which was taken off a throttled queue. */
  lemma LeaveBlocked(sh: Shape, t: nat, se: nat, on0: seq<bool>, on: seq<bool>, throttled: seq<bool>, w: seq<nat>,
                     shares: seq<nat>)
    requires Sizes(sh, on, throttled, w) && Sizes(sh, on0, throttled, w) && |shares| == |sh.queue| && sh.IsEntity(t)
    requires LeavePath(sh, t, se, on0, on, throttled) && sh.IsEntity(se) && on[se] && throttled[sh.queue[se]]
    ensures Handover(sh, t, se, on0, w, on[se := false], throttled, w, shares)
  {
    PassedNext(sh, t, se, se);
    forall x: nat | sh.IsEntity(x) ensures Climbed(sh, throttled, t, x) <==> Passed(sh, t, se, x) {
      ClimbSplit(sh, throttled, t, se, x);
    }
  }

  lemma AddHIs(c: Counts, q: nat, d: int)
    requires q < |c.hRunning|
    ensures AddH(c, q, d) == c.(hRunning := c.hRunning[q := c.hRunning[q] + d])
  {
  }

  /** One round of the first loop of dequeue_task_fair. */
  lemma LeaveStep(sh: Shape, c0: Counts, c: Counts, se: nat, t: nat, shares: seq<nat>)
    requires sh.IsEntity(t) && sh.IsEntity(se) && LeaveWalk(sh, c0, c, se, t) && |shares| == |sh.queue|
    requires Sizes(sh, c.on, c.throttled, c.weight) && Sizes(sh, c0.on, c.throttled, c.weight) && c.weight == c0.weight
    requires LeavePath(sh, t, se, c0.on, c.on, c.throttled)
    ensures Fits(sh, c) && c.on[se]
    ensures var c1 := TurnOff(sh, c, se); var q := sh.queue[se]; var up := ParentEntity(sh, q);
      var c2 := AddH(c1, q, -1);
      && Fits(sh, c1) && c1.on == c2.on == c.on[se := false] && !c1.on[t] && c1.weight == c2.weight == c0.weight
      && c1.load == c2.load
      && c1.throttled == c2.throttled == c.throttled
      && (c.throttled[q] ==>
            && CountWalk(sh, c0, c1, se, -1, t, {})
            && Handover(sh, t, se, c0.on, c0.weight, c1.on, c1.throttled, c1.weight, shares))
      && (!c.throttled[q] ==>
            && LeavePath(sh, t, up, c0.on, c2.on, c2.throttled)
            && (c1.load[q] != 0 ==> CountWalk(sh, c0, c2, up, -1, t, {}))
            && (c1.load[q] == 0 ==> LeaveWalk(sh, c0, c2, up, t)))
  {
    assert Fits(sh, c);
    hide HBehind, LocalExact, EntitiesFollowExcept, LeavePath, Handover, CountWalk, LeaveWalk, Fits;
    LeaveLevel(sh, c0, c, se, t);
    if c.throttled[sh.queue[se]] {
      LeaveBlocked(sh, t, se, c0.on, c.on, c.throttled, c.weight, shares);
    } else {
      LeavePathNext(sh, t, se, c0.on, c.on, c.throttled);
    }
  }

  /** The second loop from e, about to look at se. */
  ghost predicate Raised(sh: Shape, throttled: seq<bool>, e: int, se: int, w0: seq<nat>, w: seq<nat>, shares: seq<nat>)
    requires sh.WellFormed() && |throttled| == |sh.entity| && |w| == |w0| == |shares| == |sh.queue|
  {
    && (e == NoEntity || sh.IsEntity(e)) && (se == NoEntity || sh.IsEntity(se))
    && forall x: nat :: sh.IsEntity(x) ==>
         && (Climbed(sh, throttled, se, x) ==> Climbed(sh, throttled, e, x))
         && w[x] == if sh.owner[x] > 0 && Climbed(sh, throttled, e, x) && !Climbed(sh, throttled, se, x) then shares[x]
                    else w0[x]
  }

  lemma RaisedNext(sh: Shape, throttled: seq<bool>, e: int, se: nat, w0: seq<nat>, w: seq<nat>, shares: seq<nat>)
    requires sh.WellFormed() && |throttled| == |sh.entity| && |w| == |w0| == |shares| == |sh.queue|
    requires sh.IsEntity(se) && Raised(sh, throttled, e, se, w0, w, shares) && !throttled[sh.queue[se]]
    ensures Raised(sh, throttled, e, ParentEntity(sh, sh.queue[se]), w0,
                   if sh.owner[se] > 0 then w[se := shares[se]] else w, shares)
  {
    var p := ParentEntity(sh, sh.queue[se]);
    if p != NoEntity && Climbed(sh, throttled, p, se) { ClimbedDown(sh, throttled, p, se); }
    assert Climbed(sh, throttled, se, se);
  }

  lemma RaisedStart(sh: Shape, throttled: seq<bool>, e: int, w: seq<nat>, shares: seq<nat>)
    requires sh.WellFormed() && |throttled| == |sh.entity| && |w| == |shares| == |sh.queue|
    requires e == NoEntity || sh.IsEntity(e)
    ensures Raised(sh, throttled, e, e, w, w, shares)
  {
  }

  lemma RaisedDone(sh: Shape, throttled: seq<bool>, e: int, se: int, w0: seq<nat>, w: seq<nat>, shares: seq<nat>)
    requires sh.WellFormed() && |throttled| == |sh.entity| && |w| == |w0| == |shares| == |sh.queue|
    requires Raised(sh, throttled, e, se, w0, w, shares) && (se == NoEntity || throttled[sh.queue[se]])
    ensures forall x: nat :: sh.IsEntity(x) ==>
      w[x] == if sh.owner[x] > 0 && Climbed(sh, throttled, e, x) then shares[x] else w0[x]
  {
  }

  /** Both loops together. */
  lemma WalkReweighs(sh: Shape, t: nat, se: int, on0: seq<bool>, w0: seq<nat>, on: seq<bool>, throttled: seq<bool>,
                     w: seq<nat>, w': seq<nat>, shares: seq<nat>)
    requires Sizes(sh, on, throttled, w) && Sizes(sh, on0, throttled, w0) && |w'| == |shares| == |sh.queue|
    requires sh.IsEntity(t) && Handover(sh, t, se, on0, w0, on, throttled, w, shares)
    requires forall x: nat :: sh.IsEntity(x) ==>
      w'[x] == if sh.owner[x] > 0 && Climbed(sh, throttled, se, x) then shares[x] else w[x]
    ensures Reweighed(sh, on0, w0, on, throttled, w', t, shares)
  {
  }

  /** Entities were only put on, and these have their computed share. */
  ghost predicate Added(sh: Shape, on: seq<bool>, w: seq<nat>, on': seq<bool>, w': seq<nat>, shares: seq<nat>) {
    && |on| == |w| == |on'| == |w'| == |shares| == |sh.queue|
    && forall x :: sh.IsEntity(x) ==> (on[x] ==> on'[x]) && w'[x] == if on'[x] && !on[x] then shares[x] else w[x]
  }

  lemma AddedNext(sh: Shape, on: seq<bool>, w: seq<nat>, on': seq<bool>, w': seq<nat>, shares: seq<nat>, e: nat)
    requires Added(sh, on, w, on', w', shares) && sh.IsEntity(e)
    ensures !on'[e] ==> Added(sh, on, w, on'[e := true], w'[e := shares[e]], shares)
  {
  }

  // ---- What the walks make of the buddies ----

  /** Does a walk from e that stops at the first entity that is not a hit get past x? */
  predicate Hit(sh: Shape, hits: seq<bool>, e: int, x: nat)
    requires sh.WellFormed() && |hits| == |sh.queue| && (e == NoEntity || sh.IsEntity(e))
    decreases if e == NoEntity then -1 else sh.queue[e]
  {
    e != NoEntity && hits[e] && (x == e || Hit(sh, hits, ParentEntity(sh, sh.queue[e]), x))
  }

  lemma {:induction false} HitDown(sh: Shape, hits: seq<bool>, e: nat, x: nat)
    requires sh.WellFormed() && |hits| == |sh.queue| && sh.IsEntity(e) && Hit(sh, hits, e, x)
    ensures sh.IsEntity(x) && sh.queue[x] <= sh.queue[e] && (sh.queue[x] == sh.queue[e] ==> x == e)
    decreases sh.queue[e]
  {
    if x != e { HitDown(sh, hits, sh.entity[sh.queue[e]], x); }
  }

  /** The queues of the entities a walk from e got past before se hold the value for that entity, and
      the others what they held. */
  ghost predicate Walked(sh: Shape, hits: seq<bool>, e: int, se: int, b0: seq<int>, b: seq<int>, value: nat -> int)
    requires sh.WellFormed() && |hits| == |sh.queue| && |b| == |b0| == |sh.entity|
  {
    && (e == NoEntity || sh.IsEntity(e)) && (se == NoEntity || sh.IsEntity(se))
    && (forall x: nat :: sh.IsEntity(x) && Hit(sh, hits, se, x) ==> Hit(sh, hits, e, x))
    && (forall x: nat :: sh.IsEntity(x) && Hit(sh, hits, e, x) && !Hit(sh, hits, se, x) ==>
          b[sh.queue[x]] == value(x) && sh.queue[x] > Mark(sh, se))
    && (forall q: nat :: sh.IsQueue(q) && b[q] != b0[q] ==>
          exists x: nat :: sh.IsEntity(x) && Hit(sh, hits, e, x) && !Hit(sh, hits, se, x) && sh.queue[x] == q)
  }

  lemma WalkedNext(sh: Shape, hits: seq<bool>, e: int, se: nat, b0: seq<int>, b: seq<int>, value: nat -> int)
    requires sh.WellFormed() && |hits| == |sh.queue| && |b| == |b0| == |sh.entity| && sh.IsEntity(se) && hits[se]
    requires Walked(sh, hits, e, se, b0, b, value)
    ensures Walked(sh, hits, e, ParentEntity(sh, sh.queue[se]), b0, b[sh.queue[se] := value(se)], value)
  {
    var p, b' := ParentEntity(sh, sh.queue[se]), b[sh.queue[se] := value(se)];
    assert Hit(sh, hits, se, se);
    forall x: nat | p != NoEntity && Hit(sh, hits, p, x) ensures sh.IsEntity(x) && sh.queue[x] < sh.queue[se] {
      HitDown(sh, hits, p, x);
    }
    forall q: nat | sh.IsQueue(q) && b'[q] != b0[q]
      ensures exists x: nat :: sh.IsEntity(x) && Hit(sh, hits, e, x) && !Hit(sh, hits, p, x) && sh.queue[x] == q
    {
      if q == sh.queue[se] {
        assert Hit(sh, hits, e, se) && !Hit(sh, hits, p, se);
      } else {
        var x: nat :| sh.IsEntity(x) && Hit(sh, hits, e, x) && !Hit(sh, hits, se, x) && sh.queue[x] == q;
        assert !Hit(sh, hits, p, x);
      }
    }
  }

  /** All of the walk. */
  ghost predicate WalkedAll(sh: Shape, hits: seq<bool>, e: int, b0: seq<int>, b: seq<int>, value: nat -> int)
    requires sh.WellFormed() && |hits| == |sh.queue| && |b| == |b0| == |sh.entity| && (e == NoEntity || sh.IsEntity(e))
  {
    && (forall x: nat :: sh.IsEntity(x) && Hit(sh, hits, e, x) ==> b[sh.queue[x]] == value(x))
    && (forall q: nat :: sh.IsQueue(q) && b[q] != b0[q] ==>
          exists x: nat :: sh.IsEntity(x) && Hit(sh, hits, e, x) && sh.queue[x] == q)
  }

  lemma WalkedStart(sh: Shape, hits: seq<bool>, e: int, b: seq<int>, value: nat -> int)
    requires sh.WellFormed() && |hits| == |sh.queue| && |b| == |sh.entity| && (e == NoEntity || sh.IsEntity(e))
    ensures Walked(sh, hits, e, e, b, b, value)
  {
  }

  lemma WalkedDone(sh: Shape, hits: seq<bool>, e: int, se: int, b0: seq<int>, b: seq<int>, value: nat -> int)
    requires sh.WellFormed() && |hits| == |sh.queue| && |b| == |b0| == |sh.entity|
    requires Walked(sh, hits, e, se, b0, b, value) && (se == NoEntity || !hits[se])
    ensures WalkedAll(sh, hits, e, b0, b, value)
  {
  }

  /** What the walks write: no buddy, or the entity itself. */
  const Cleared: nat -> int := _ => NoEntity

  const Itself: nat -> int := e => e

  /** The entities that are the buddies of their queues. */
  function Buddies(sh: Shape, b: seq<int>): (r: seq<bool>)
    requires sh.WellFormed() && |b| == |sh.entity|
    ensures |r| == |sh.queue|
  {
    seq(|sh.queue|, x requires 0 <= x < |sh.queue| => b[sh.queue[x]] == x)
  }

  // ---- Whom a dequeue walk makes the next buddy ----

  /** The first entity on the way from t that stays on, reached through unthrottled queues that became
      empty. */
  ghost predicate FirstStaying(sh: Shape, t: nat, s: nat, on0: seq<bool>, on: seq<bool>, throttled: seq<bool>)
    requires sh.WellFormed() && sh.IsEntity(t) && |on| == |on0| == |sh.queue| && |throttled| == |sh.entity|
  {
    && s != t && sh.IsEntity(s) && OnWay(sh, t, s) && on[s]
    && forall y: nat :: Passed(sh, t, s, y) ==> on0[y] && !on[y] && !throttled[sh.queue[y]]
  }

  lemma StayingIs(sh: Shape, t: nat, se: int, s: nat, on0: seq<bool>, on: seq<bool>, throttled: seq<bool>)
    requires sh.WellFormed() && sh.IsEntity(t) && |on| == |on0| == |sh.queue| && |throttled| == |sh.entity|
    requires LeavePath(sh, t, se, on0, on, throttled) && FirstStaying(sh, t, s, on0, on, throttled)
    ensures s == se
  {
    assert !Passed(sh, t, se, s);
    if se != NoEntity {
      NotPassedItself(sh, t, se);
      PassedBy(sh, t, se, s);
      WayOrder(sh, t, se, s);
      WayDown(sh, se, s);
    }
  }

  lemma PassedBy(sh: Shape, t: nat, se: nat, s: nat)
    requires sh.WellFormed() && sh.IsEntity(t) && sh.IsEntity(se) && OnWay(sh, t, se) && sh.IsEntity(s)
    ensures sh.queue[se] > sh.queue[s] ==> Passed(sh, t, s, se)
  {
  }

  lemma BuddiesSized(sh: Shape, on: seq<bool>, b: seq<int>)
    requires BuddiesOn(sh, on, b)
    ensures |b| == |sh.entity|
  {
  }

  lemma NotPassedItself(sh: Shape, t: nat, se: nat)
    requires sh.WellFormed() && sh.IsEntity(t) && sh.IsEntity(se)
    ensures !Passed(sh, t, se, se)
  {
  }

  lemma BlockedStaysNone(sh: Shape, t: nat, se: nat, s: nat, on0: seq<bool>, on: seq<bool>, throttled: seq<bool>)
    requires sh.WellFormed() && sh.IsEntity(t) && |on| == |on0| == |sh.queue| && |throttled| == |sh.entity|
    requires LeavePath(sh, t, se, on0, on, throttled) && sh.IsEntity(se) && throttled[sh.queue[se]]
    ensures !FirstStaying(sh, t, s, on0, on[se := false], throttled)
  {
    if sh.IsEntity(s) && OnWay(sh, t, s) && !Passed(sh, t, se, s) {
      PassedBy(sh, t, se, s);
      WayOrder(sh, t, se, s);
      WayDown(sh, se, s);
    }
  }

  /** With the bias that one and the queued entities above it are the next buddies of their queues. */
  ghost predicate Biased(sh: Shape, t: nat, on0: seq<bool>, on: seq<bool>, throttled: seq<bool>, next: seq<int>)
    requires sh.WellFormed() && sh.IsEntity(t) && |on| == |on0| == |sh.queue|
    requires |throttled| == |next| == |sh.entity|
  {
    forall s: nat, x: nat :: FirstStaying(sh, t, s, on0, on, throttled) && sh.IsEntity(x) && Hit(sh, on, s, x) ==>
      next[sh.queue[x]] == x
  }

  lemma BiasedBlocked(sh: Shape, t: nat, se: nat, on0: seq<bool>, on: seq<bool>, throttled: seq<bool>, next: seq<int>)
    requires sh.WellFormed() && sh.IsEntity(t) && |on| == |on0| == |sh.queue|
    requires |throttled| == |next| == |sh.entity|
    requires LeavePath(sh, t, se, on0, on, throttled) && sh.IsEntity(se) && throttled[sh.queue[se]]
    ensures forall next': seq<int> :: |next'| == |sh.entity| ==> Biased(sh, t, on0, on[se := false], throttled, next')
  {
    var on' := on[se := false];
    forall s: nat ensures !FirstStaying(sh, t, s, on0, on', throttled) {
      BlockedStaysNone(sh, t, se, s, on0, on, throttled);
    }
  }

  lemma BiasedStays(sh: Shape, t: nat, se: int, on0: seq<bool>, on: seq<bool>, throttled: seq<bool>,
                    before: seq<int>, next: seq<int>)
    requires sh.WellFormed() && sh.IsEntity(t) && |on| == |on0| == |sh.queue|
    requires |throttled| == |next| == |before| == |sh.entity| && LeavePath(sh, t, se, on0, on, throttled)
    requires se != NoEntity ==> WalkedAll(sh, on, se, before, next, Itself)
    ensures Biased(sh, t, on0, on, throttled, next)
  {
    forall s: nat, x: nat | FirstStaying(sh, t, s, on0, on, throttled) && sh.IsEntity(x) && Hit(sh, on, s, x)
      ensures next[sh.queue[x]] == x
    {
      StayingIs(sh, t, se, s, on0, on, throttled);
    }
  }
}
