/** Pulling tasks off a busy run queue until an imbalance is covered. */
module LoadBalance {

  datatype Idle = NotIdle | NewlyIdle | IdleCpu

  /** What the loop asks about a task in a given round: may it migrate, and its load then.
      `lbMin`: small loads are passed over; `preempt`: a newly idle cpu stops at one task. */
  datatype Rules = Rules(can: (nat, nat) -> bool, load: (nat, nat) -> nat, lbMin: bool, preempt: bool, idle: Idle)

  datatype Taken = Taken(task: nat, load: nat, round: nat)

  datatype Env = Env(tasks: seq<nat>, taken: seq<Taken>, loop: nat, loopMax: nat, loopBreak: nat,
                     needBreak: bool, imbalance: int, nrRunning: int)

  const MigrateBreak: nat := 32

  function Starved(r: Rules, e: Env): bool { e.tasks == [] || (r.idle != NotIdle && e.nrRunning <= 1) }

  function Passes(r: Rules, e: Env, p: nat): bool {
    r.can(e.loop, p) && !(r.lbMin && r.load(e.loop, p) < 16) && r.load(e.loop, p) / 2 <= e.imbalance
  }

  function Take(r: Rules, e: Env, p: nat): Env
    requires e.tasks != []
  {
    var l := r.load(e.loop, p);
    e.(tasks := e.tasks[1..], taken := [Taken(p, l, e.loop)] + e.taken,
       imbalance := e.imbalance - l, nrRunning := e.nrRunning - 1)
  }

  /** How a round ends: the loop stops, goes on with the first task moved to the tail, or has
      detached it and stops or goes on. */
  datatype Round = Stop(next: Env) | Skip(next: Env) | Last(next: Env) | More(next: Env)

  function OneRound(r: Rules, e: Env): (o: Round)
    ensures !o.Stop? ==> e.loop < e.loopMax && o.next.loop == e.loop + 1 && o.next.loopMax == e.loopMax
  {
    if Starved(r, e) then Stop(e)
    else
      var e1 := e.(loop := e.loop + 1);
      if e1.loop > e1.loopMax then Stop(e1)
      else if e1.loop > e1.loopBreak then Stop(e1.(loopBreak := e1.loopBreak + MigrateBreak, needBreak := true))
      else
        var p := e1.tasks[0];
        if !Passes(r, e1, p) then Skip(e1.(tasks := e1.tasks[1..] + [p]))
        else
          var e2 := Take(r, e1, p);
          if (r.preempt && r.idle == NewlyIdle) || e2.imbalance <= 0 then Last(e2) else More(e2)
  }

  function RoundsLeft(e: Env): nat { if e.loop <= e.loopMax then e.loopMax + 1 - e.loop else 0 }

  /** The loop of detach_tasks from state e. */
  function Steal(r: Rules, e: Env): Env
    decreases RoundsLeft(e)
  {
    var o := OneRound(r, e);
    if o.Stop? || o.Last? then o.next else Steal(r, o.next)
  }

  // ---- Nothing is lost ----

  function Ids(taken: seq<Taken>): seq<nat> {
    if taken == [] then [] else [taken[0].task] + Ids(taken[1..])
  }

  function All(e: Env): multiset<nat> { multiset(e.tasks) + multiset(Ids(e.taken)) }

  lemma TakeConserves(r: Rules, e: Env)
    requires e.tasks != []
    ensures All(Take(r, e, e.tasks[0])) == All(e)
    ensures All(e.(tasks := e.tasks[1..] + [e.tasks[0]])) == All(e)
  {
    assert e.tasks == [e.tasks[0]] + e.tasks[1..];
    var e2 := Take(r, e, e.tasks[0]);
    assert e2.taken[1..] == e.taken;
    assert multiset(Ids(e2.taken)) == multiset{e.tasks[0]} + multiset(Ids(e.taken));
  }

  lemma RoundConserves(r: Rules, e: Env)
    ensures All(OneRound(r, e).next) == All(e)
  {
    hide All;
    if e.tasks != [] { TakeConserves(r, e.(loop := e.loop + 1)); }
    LoopIrrelevant(e, OneRound(r, e).next);
    LoopIrrelevant(e, e.(loop := e.loop + 1));
  }

  lemma LoopIrrelevant(e: Env, e': Env)
    ensures e.tasks == e'.tasks && e.taken == e'.taken ==> All(e) == All(e')
  {
  }

  /** What stays and what is detached is a permutation of what there was. */
  lemma {:induction false} StealConserves(r: Rules, e: Env)
    ensures All(Steal(r, e)) == All(e)
    decreases RoundsLeft(e)
  {
    hide OneRound, All;
    RoundConserves(r, e);
    var o := OneRound(r, e);
    if !(o.Stop? || o.Last?) { StealConserves(r, o.next); }
  }

  // ---- Bounds ----

  function Total(taken: seq<Taken>): nat {
    if taken == [] then 0 else taken[0].load + Total(taken[1..])
  }

  lemma {:induction false} TotalAppend(s: seq<Taken>, t: seq<Taken>)
    ensures Total(s + t) == Total(s) + Total(t)
  {
    if s == [] { assert s + t == t; } else {
      assert (s + t)[1..] == s[1..] + t;
      TotalAppend(s[1..], t);
    }
  }

  /** A task detached in this call, in a round after `from` and up to `to`, passed every test. */
  predicate Allowed(r: Rules, x: Taken, from: nat, to: nat) {
    from < x.round <= to && r.can(x.round, x.task) && x.load == r.load(x.round, x.task) && (r.lbMin ==> x.load >= 16)
  }

  /** What one call may do from e to e', detaching `got`, the last one first. */
  predicate Bounded(r: Rules, e: Env, e': Env, got: seq<Taken>) {
    && e'.taken == got + e.taken
    && e.loop <= e'.loop && (e.loop <= e.loopMax ==> e'.loop <= e.loopMax + 1)
    && e'.loopMax == e.loopMax && |got| <= e'.loop - e.loop
    && (got != [] ==> e.loop + |got| <= e.loopMax)
    && (forall i :: 0 <= i < |got| ==> Allowed(r, got[i], e.loop, e.loopMax))
    && (forall i, j :: 0 <= i < j < |got| ==> got[j].round < got[i].round)
    && e'.imbalance == e.imbalance - Total(got)
    && (got != [] ==> Total(got) <= e.imbalance + (got[0].load + 1) / 2)
    && e'.nrRunning == e.nrRunning - |got|
    && (r.idle != NotIdle && got != [] ==> e'.nrRunning >= 1)
  }

  /** The tasks detached after state e, the last one first. */
  function Got(r: Rules, e: Env): seq<Taken>
    decreases RoundsLeft(e)
  {
    var o := OneRound(r, e);
    match o
    case Stop(_) => []
    case Skip(e1) => Got(r, e1)
    case Last(e1) => if e1.taken == [] then [] else [e1.taken[0]]
    case More(e1) => if e1.taken == [] then [] else Got(r, e1) + [e1.taken[0]]
  }

  lemma RoundTakes(r: Rules, e: Env)
    requires OneRound(r, e).Last? || OneRound(r, e).More?
    ensures !Starved(r, e) && e.loop + 1 <= e.loopMax && Passes(r, e.(loop := e.loop + 1), e.tasks[0])
    ensures OneRound(r, e).next == Take(r, e.(loop := e.loop + 1), e.tasks[0])
    ensures OneRound(r, e).More? ==> OneRound(r, e).next.imbalance > 0
  {
  }

  lemma RoundStops(r: Rules, e: Env)
    requires OneRound(r, e).Stop?
    ensures Bounded(r, e, OneRound(r, e).next, [])
  {
  }

  /** At most loopMax rounds; every detached task passed the tests of its own round; the load
      taken exceeds the imbalance by at most half the last task's load, rounded up; and a cpu
      that is not busy leaves the source at least one running task. */
  lemma {:induction false} StealBounded(r: Rules, e: Env)
    requires e.imbalance > 0
    ensures Bounded(r, e, Steal(r, e), Got(r, e))
    decreases RoundsLeft(e)
  {
    hide OneRound, Bounded, Take;
    var o := OneRound(r, e);
    match o
    case Stop(_) => RoundStops(r, e);
    case Skip(e1) =>
      SkipImbalance(r, e);
      StealBounded(r, e1);
      SkipThen(r, e, Steal(r, e1), Got(r, e1));
    case Last(e1) =>
      RoundTakes(r, e);
      NothingMore(r, e1);
      TakeThen(r, e, e1, []);
      assert [] + [e1.taken[0]] == [e1.taken[0]];
    case More(e1) =>
      RoundTakes(r, e);
      StealBounded(r, e1);
      TakeThen(r, e, Steal(r, e1), Got(r, e1));
  }

  lemma NothingMore(r: Rules, e: Env)
    ensures Bounded(r, e, e, [])
  {
  }

  lemma SkipImbalance(r: Rules, e: Env)
    requires OneRound(r, e).Skip?
    ensures OneRound(r, e).next.imbalance == e.imbalance
  {
  }

  lemma SkipThen(r: Rules, e: Env, e': Env, got: seq<Taken>)
    requires OneRound(r, e).Skip? && Bounded(r, OneRound(r, e).next, e', got)
    ensures Bounded(r, e, e', got)
  {
    var e1 := OneRound(r, e).next;
    forall i | 0 <= i < |got| ensures Allowed(r, got[i], e.loop, e.loopMax) {
      assert Allowed(r, got[i], e1.loop, e1.loopMax);
    }
  }

  /** Taking one task and then going on keeps the bounds. */
  lemma TakeThen(r: Rules, e: Env, e': Env, got: seq<Taken>)
    requires !Starved(r, e) && e.loop + 1 <= e.loopMax && Passes(r, e.(loop := e.loop + 1), e.tasks[0])
    requires var e2 := Take(r, e.(loop := e.loop + 1), e.tasks[0]); Bounded(r, e2, e', got)
    ensures var e2 := Take(r, e.(loop := e.loop + 1), e.tasks[0]);
      e2.taken != [] && Bounded(r, e, e', got + [e2.taken[0]])
  {
    var e1 := e.(loop := e.loop + 1);
    var e2 := Take(r, e1, e.tasks[0]);
    var x := e2.taken[0];
    var all := got + [x];
    TotalAppend(got, [x]);
    assert Total([x]) == x.load;
    assert all + e.taken == got + e2.taken;
    assert Allowed(r, x, e.loop, e.loopMax);
    forall i | 0 <= i < |all| ensures Allowed(r, all[i], e.loop, e.loopMax) {
      if i < |got| { assert Allowed(r, got[i], e2.loop, e2.loopMax); }
    }
    forall i, j | 0 <= i < j < |all| ensures all[j].round < all[i].round {
      assert Allowed(r, got[i], e2.loop, e2.loopMax);
    }
  }

  /** The loop ends for one of the reasons the source gives. */
  predicate Done(r: Rules, e: Env) {
    || e.tasks == [] || (r.idle != NotIdle && e.nrRunning <= 1)
    || e.loop > e.loopMax || e.imbalance <= 0 || e.needBreak
    || (r.preempt && r.idle == NewlyIdle && e.taken != [])
  }

  lemma {:induction false} StealDone(r: Rules, e: Env)
    ensures Done(r, Steal(r, e))
    decreases RoundsLeft(e)
  {
    var o := OneRound(r, e);
    if !(o.Stop? || o.Last?) { StealDone(r, o.next); }
  }

  // ---- No eligible task is passed over ----

  /** A look at a task: its round, the imbalance then left, and whether the task was detached. */
  datatype Look = Look(task: nat, round: nat, room: int, took: bool)

  /** The looks of the loop from state e, in order. */
  function Looks(r: Rules, e: Env): seq<Look>
    decreases RoundsLeft(e)
  {
    var o := OneRound(r, e);
    if o.Stop? || e.tasks == [] then []
    else
      var x := Look(e.tasks[0], e.loop + 1, e.imbalance, !o.Skip?);
      if o.Last? then [x] else [x] + Looks(r, o.next)
  }

  /** It may migrate, it is not too small to bother, and half its load fits the imbalance left. */
  predicate Eligible(r: Rules, x: Look) {
    var load := r.load(x.round, x.task);
    r.can(x.round, x.task) && (r.lbMin ==> load >= 16) && load / 2 <= x.room
  }

  /** Each round looks at one task and detaches it exactly if it is eligible, and what was detached so
      far comes off the imbalance. */
  predicate Judged(r: Rules, looks: seq<Look>, round: nat, room: int)
    decreases |looks|
  {
    looks != [] ==>
    && looks[0].round == round && looks[0].room == room && (looks[0].took <==> Eligible(r, looks[0]))
    && Judged(r, looks[1..], round + 1, room - if looks[0].took then r.load(round, looks[0].task) else 0)
  }

  /** What the looks detached, the last one first. */
  function Took(r: Rules, looks: seq<Look>): seq<Taken> {
    if looks == [] then []
    else
      var x := looks[0];
      Took(r, looks[1..]) + if x.took then [Taken(x.task, r.load(x.round, x.task), x.round)] else []
  }

  lemma LookJudged(r: Rules, e: Env)
    requires !OneRound(r, e).Stop?
    ensures e.tasks != [] && (!OneRound(r, e).Skip? <==> Eligible(r, Look(e.tasks[0], e.loop + 1, e.imbalance, true)))
    ensures var o := OneRound(r, e); var l := r.load(e.loop + 1, e.tasks[0]);
      && o.next.imbalance == e.imbalance - (if o.Skip? then 0 else l)
      && (!o.Skip? ==> o.next.taken == [Taken(e.tasks[0], l, e.loop + 1)] + e.taken)
      && o.next.tasks == e.tasks[1..] + if o.Skip? then [e.tasks[0]] else []
  {
  }

  /** Every look detaches its task exactly if that is eligible, and nothing else is detached. */
  lemma {:induction false} LooksJudged(r: Rules, e: Env)
    ensures Judged(r, Looks(r, e), e.loop + 1, e.imbalance) && Got(r, e) == Took(r, Looks(r, e))
    decreases RoundsLeft(e)
  {
    hide OneRound, Eligible;
    var o := OneRound(r, e);
    if !o.Stop? {
      LookJudged(r, e);
      var looks := Looks(r, e);
      SameEligible(r, e.tasks[0], e.loop + 1, e.imbalance);
      if o.Last? {
        assert looks[1..] == [];
      } else {
        LooksJudged(r, o.next);
        assert looks[1..] == Looks(r, o.next);
      }
    }
  }

  lemma SameEligible(r: Rules, p: nat, round: nat, room: int)
    ensures Eligible(r, Look(p, round, room, true)) <==> Eligible(r, Look(p, round, room, false))
  {
  }

  /** The loop looks on only while it may: within its rounds and before its break, with imbalance left,
      on a busy enough cpu, and for a newly idle preemptible cpu only until one task is detached. */
  predicate MayLook(r: Rules, e: Env, round: nat, room: int) {
    && round <= e.loopMax && round <= e.loopBreak && room > 0
    && (r.idle != NotIdle ==> e.nrRunning > 1)
  }

  predicate Ongoing(r: Rules, looks: seq<Look>, e: Env)
    decreases |looks|
  {
    looks != [] ==>
    && MayLook(r, e, looks[0].round, looks[0].room)
    && (looks[0].took && r.preempt && r.idle == NewlyIdle ==> |looks| == 1)
    && Ongoing(r, looks[1..], e.(nrRunning := e.nrRunning - if looks[0].took then 1 else 0))
  }

  lemma LookAllowed(r: Rules, e: Env)
    requires !OneRound(r, e).Stop? && e.imbalance > 0
    ensures MayLook(r, e, e.loop + 1, e.imbalance)
    ensures var o := OneRound(r, e);
      && o.next.loopMax == e.loopMax && o.next.loopBreak == e.loopBreak && o.next.loop == e.loop + 1
      && o.next.nrRunning == e.nrRunning - (if o.Skip? then 0 else 1)
      && (o.Skip? || o.More? ==> o.next.imbalance > 0)
      && (o.More? ==> !(r.preempt && r.idle == NewlyIdle))
  {
  }

  lemma {:induction false} LooksOngoing(r: Rules, e: Env)
    requires e.imbalance > 0
    ensures Ongoing(r, Looks(r, e), e)
    decreases RoundsLeft(e)
  {
    hide OneRound, MayLook;
    var o := OneRound(r, e);
    if !o.Stop? {
      LookJudged(r, e);
      LookAllowed(r, e);
      var looks := Looks(r, e);
      if o.Last? {
        assert looks[1..] == [];
      } else {
        assert looks[1..] == Looks(r, o.next);
        LooksOngoing(r, o.next);
        SameOngoing(r, looks[1..], o.next, e.(nrRunning := o.next.nrRunning));
      }
    }
  }

  /** Only the limits and the number running matter. */
  lemma {:induction false} SameOngoing(r: Rules, looks: seq<Look>, e: Env, e': Env)
    requires e.loopMax == e'.loopMax && e.loopBreak == e'.loopBreak && e.nrRunning == e'.nrRunning
    ensures Ongoing(r, looks, e) ==> Ongoing(r, looks, e')
    decreases |looks|
  {
    if looks != [] {
      var d := if looks[0].took then 1 else 0;
      SameOngoing(r, looks[1..], e.(nrRunning := e.nrRunning - d), e'.(nrRunning := e'.nrRunning - d));
    }
  }

  /** A break is asked for after the rounds up to loop_break, and the next comes 32 rounds later. */
  lemma {:induction false} StealBreaks(r: Rules, e: Env)
    requires !e.needBreak && e.loop <= e.loopBreak
    ensures var e' := Steal(r, e);
      if e'.needBreak then e'.loopBreak == e.loopBreak + 32 && e'.loop == e.loopBreak + 1
      else e'.loopBreak == e.loopBreak
    decreases RoundsLeft(e)
  {
    var o := OneRound(r, e);
    if !(o.Stop? || o.Last?) { StealBreaks(r, o.next); }
  }

  /** In the first lap every task is looked at in its turn, whatever happened to those before it. */
  lemma {:induction false} FirstLap(r: Rules, e: Env, i: nat)
    requires i < |Looks(r, e)| && i < |e.tasks|
    ensures Looks(r, e)[i].task == e.tasks[i]
    decreases RoundsLeft(e)
  {
    hide OneRound;
    var o := OneRound(r, e);
    LookJudged(r, e);
    if i > 0 {
      assert Looks(r, e)[1..] == Looks(r, o.next);
      FirstLap(r, o.next, i - 1);
    }
  }

  // ---- The loop over the lists ----

  class LbEnv {
    const rules: Rules
    var tasks: seq<nat>
    var taken: seq<Taken>
    var loop: nat
    var loopMax: nat
    var loopBreak: nat
    var needBreak: bool
    var imbalance: int
    var nrRunning: int

    function Value(): Env
      reads this
    {
      Env(tasks, taken, loop, loopMax, loopBreak, needBreak, imbalance, nrRunning)
    }

    /** detach_tasks */
    method DetachTasks() returns (detached: nat)
      modifies this
      ensures Value() == if old(imbalance) > 0 then Steal(rules, old(Value())) else old(Value())
      ensures detached == if old(imbalance) > 0 then |Got(rules, old(Value()))| else 0
    {
      hide OneRound;
      detached := 0;
      if imbalance <= 0 { return; }
      var going := true;
      while going
        invariant going ==> Steal(rules, Value()) == Steal(rules, old(Value()))
        invariant going ==> detached + |Got(rules, Value())| == |Got(rules, old(Value()))|
        invariant !going ==> Value() == Steal(rules, old(Value())) && detached == |Got(rules, old(Value()))|
        decreases going, RoundsLeft(Value())
      {
        var took;
        going, took := NextRound();
        if took { detached := detached + 1; }
      }
    }

    /** One round of the loop: should it go on, and was a task detached? */
    method NextRound() returns (going: bool, took: bool)
      modifies this
      ensures Value() == OneRound(rules, old(Value())).next
      ensures going == (OneRound(rules, old(Value())).Skip? || OneRound(rules, old(Value())).More?)
      ensures took == (OneRound(rules, old(Value())).Last? || OneRound(rules, old(Value())).More?)
      ensures took ==> taken != []
    {
      if tasks == [] { return false, false; }
      if rules.idle != NotIdle && nrRunning <= 1 { return false, false; }
      var p := tasks[0];
      loop := loop + 1;
      if loop > loopMax { return false, false; }
      if loop > loopBreak {
        loopBreak, needBreak := loopBreak + MigrateBreak, true;
        return false, false;
      }
      var load := rules.load(loop, p);
      if !rules.can(loop, p) || (rules.lbMin && load < 16) || load / 2 > imbalance {
        tasks := tasks[1..] + [p];
        return true, false;
      }
      tasks := tasks[1..];
      taken := [Taken(p, load, loop)] + taken;
      nrRunning := nrRunning - 1;
      imbalance := imbalance - load;
      return !(rules.preempt && rules.idle == NewlyIdle) && imbalance > 0, true;
    }
  }
}
