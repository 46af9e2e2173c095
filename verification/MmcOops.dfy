/** When the MMC request machine follows a null pointer, and runs that go wrong. */
module MmcOops {
  import opened MmcRequests
  import opened MmcRuns
  import opened MmcQuiet

  /** A request without data runs with no transfer left active. */
  predicate Tame(h: Host) { h.live && h.mrq.Some? && h.mrq.value.data.None? ==> h.pio == NoXfer }

  /** A run of the tasklet follows a null pointer exactly when it finds everything done and either
      no request in hand, or a transfer still active and no data in the request to report that to. */
  lemma TaskletOopsIff(h: Host, env: Env)
    requires Inv(h) && h.scheduled
    ensures var t := Transfer(h.(scheduled := false), env);
      Tasklet(h, env).oops <==>
        t.completeWhat == Finalize && (h.mrq.None? || (t.pio != NoXfer && h.mrq.value.data.None?))
  {
    hide Transfer, Drains, Busy;
    var h0 := h.(scheduled := false);
    assert Buffers(h0) == Buffers(h);
    TransferMoves(h0, env);
    if h.live {
      BusyWaits(h);
      BusyMoves(h, h0);
      BusyMoves(h0, Transfer(h0, env));
      hide Finish;
      FinishLive(Transfer(h0, env), env.flush);
    } else {
      SameDrains(h, env);
      RestFinalizesIff(h0, env);
    }
  }

  /** What a left-over run does that finds all the words a read left active wants: it follows a null
      pointer if no request is in hand; otherwise it finishes a request that was rejected on the
      spot, which is completed again or has its stop command sent with the interrupt disabled. */
  lemma DrainedOutcome(h: Host, env: Env)
    requires Inv(h) && !h.live && h.scheduled && Drains(h, env)
    ensures var h' := Tasklet(h, env);
      if h.mrq.None? then h'.oops
      else
        && !h'.oops
        && if h.mrq.value.stop.None? then !h'.live && h'.done == h.done[h.mrq.value.id := 2]
           else h'.live && h'.cmdIsStop && h'.depth == 1 && h'.done == h.done
  {
    hide Transfer, Drains;
    var h0 := h.(scheduled := false);
    assert Buffers(h0) == Buffers(h);
    SameDrains(h, env);
    TransferMoves(h0, env);
    RestFinalizesIff(h0, env);
  }

  /** So with nothing outstanding a run of the tasklet keeps the invariant exactly when it does not. */
  lemma RestKeepsIff(h: Host, env: Env)
    requires Inv(h) && !h.live
    ensures Inv(Tasklet(h, env)) <==> Spares(h, env)
  {
    hide Tasklet, Drains, Busy, PositiveBuffers;
    if Spares(h, env) {
      TaskletKeeps(h, env);
      TaskletAtRest(h, env);
    } else {
      DrainedOutcome(h, env);
      var h' := Tasklet(h, env);
      if h.mrq.Some? && h.mrq.value.stop.None? {
        assert h.mrq.value.id < |h.done| && h'.done[h.mrq.value.id] == 2;
      }
    }
  }

  lemma TaskletTame(h: Host, env: Env)
    requires h.live && Busy(h) && !h.oops && Tame(h)
    ensures !Tasklet(h, env).oops && Tame(Tasklet(h, env))
  {
    hide Transfer, Busy, Finish, PositiveBuffers;
    var h0 := h.(scheduled := false);
    BusyWaits(h);
    BusyMoves(h, h0);
    CompletesAll(h0);
    TransferMoves(h0, env);
    var h1 := Transfer(h0, env);
    BusyMoves(h0, h1);
    FinishLive(h1, env.flush);
  }

  /** A request without data is handed in only when no transfer is active. */
  predicate Careful(h: Host, s: Step) { s.NewRequest? && s.r.data.None? ==> h.pio == NoXfer }

  lemma TransmitTame(h: Host, r: Request, l: Launch)
    requires Launching(h, r) && SparesGap(h, l.gaps(3)) && (r.data.None? ==> h.pio == NoXfer)
    ensures var h' := Transmit(h, r, l); !h'.oops && Tame(h')
  {
    hide Tasklet, Drains, Busy, SparesGap;
    LaunchStrike(h, r, l.gaps(3));
    var h1 := Strike(h, l.gaps(3));
    SendBusy(h1, r);
    var h2 := SendCommand(h1, r.rsp, r.data.Some?);
    if l.gaps(4).Some? { TaskletTame(h2, l.gaps(4).value); }
  }

  lemma SubmitTame(h: Host, r: Request, l: Launch)
    requires Inv(h) && !h.live && GoodRequest(r) && r.id == |h.done| && (r.data.None? ==> h.pio == NoXfer)
    requires SparesLaunch(h.(done := h.done + [0]), r, l)
    ensures var h' := Submit(h.(done := h.done + [0]), r, l); !h'.oops && Tame(h')
  {
    StartLaunch(h, r);
    hide Strike, PreparePio, Launching, Inv, GoodRequest, SparesGap, SparesPrepare, Transmit, ClearStatus, HandIn;
    var h0 := HandIn(h.(done := h.done + [0]), r);
    LaunchFacts(h0, r);
    LaunchStrike(h0, r, l.gaps(0));
    var h1 := Strike(h0, l.gaps(0));
    LaunchFacts(h1, r);
    LaunchClear(h1, r, l);
    var h2 := ClearStatus(h1, l.flush);
    LaunchFacts(h2, r);
    if Accepted(r, l) {
      if r.data.Some? { LaunchPrepare(h2, r, l); }
      TransmitTame(Prepared(h2, r, l), r, l);
    }
  }

  lemma StepTame(h: Host, s: Step)
    requires Inv(h) && Fits(h, s) && Tame(h) && Careful(h, s)
    ensures !Apply(h, s).oops && Tame(Apply(h, s))
  {
    hide Tasklet, Submit, Irq, Drains, SparesLaunch, Busy;
    match s
    case Interrupt(st) => IrqFrame(h, st);
    case Receive(_) =>
    case RunTasklet(env) =>
      if h.live { TaskletTame(h, env); } else { TaskletAtRest(h, env); }
    case NewRequest(r, l) =>
      GoodId(r, |h.done|);
      SubmitTame(h, r.(id := |h.done|), l);
  }

  predicate AllCareful(h: Host, steps: seq<Step>)
    decreases |steps|
  {
    steps == [] || (Careful(h, steps[0]) && AllCareful(Apply(h, steps[0]), steps[1..]))
  }

  /** Then no run follows a null pointer. */
  lemma {:induction false} CarefulRuns(h: Host, steps: seq<Step>)
    requires Inv(h) && Tame(h) && AllFit(h, steps) && AllCareful(h, steps)
    ensures !Run(h, steps).oops && Inv(Run(h, steps))
    decreases |steps|
  {
    hide Inv, Apply, Fits, Tame, Careful;
    InvNotOops(h);
    if steps != [] {
      StepKeeps(h, steps[0]);
      StepTame(h, steps[0]);
      CarefulRuns(Apply(h, steps[0]), steps[1..]);
    }
  }

  // ---- When a request without data is safe ----

  predicate NoRequests(steps: seq<Step>) { forall i :: 0 <= i < |steps| ==> !steps[i].NewRequest? }

  /** Handed in like this and continued like this, the request ends in a null pointer. */
  predicate EndsInOops(h: Host, r: Request, l: Launch, steps: seq<Step>) {
    && Fits(h, NewRequest(r, l)) && NoRequests(steps)
    && AllFit(Apply(h, NewRequest(r, l)), steps) && Run(Apply(h, NewRequest(r, l)), steps).oops
  }

  lemma {:induction false} NoRequestsCareful(h: Host, steps: seq<Step>)
    requires NoRequests(steps)
    ensures AllCareful(h, steps)
    decreases |steps|
  {
    hide Apply;
    if steps != [] { NoRequestsCareful(Apply(h, steps[0]), steps[1..]); }
  }

  const NoEvent := Status(false, false, false, false, false, false, false)

  /** n words arrive before the first look, and a write finds this much room at its looks. */
  function Words(n: nat, room: nat): Env {
    Env(k => if k == 0 then n else 0, k => if k == 0 then room else 0, _ => 0, _ => [], _ => [], false)
  }

  /** Nothing strikes, and the fifo has no room. */
  const Plain := Launch(false, false, _ => 0, _ => 0, _ => None, _ => None)

  const Answered := Interrupt(NoEvent.(sent := true, response := true))

  /** With a transfer left active, the request followed by its interrupt and the tasklet will do. */
  lemma ActiveEndsInOops(h: Host, r: Request)
    requires Inv(h) && !h.live && GoodRequest(r) && r.data.None? && h.pio != NoXfer
    ensures EndsInOops(h, r, Plain, [Answered, RunTasklet(Words(0, 0))])
  {
    var env := Words(0, 0);
    var h1 := Apply(h, NewRequest(r, Plain));
    assert h1.mrq == Some(r.(id := |h.done|)) && h1.depth == 0 && h1.pio == h.pio && h1.words == h.words;
    assert !h1.oops && h1.live && h1.fifo == h.fifo && (h1.completeWhat == RspFin || h1.completeWhat == CmdSent);
    var h2 := Apply(h1, Answered);
    assert h2 == h1.(completeWhat := Finalize, scheduled := true);
    var h3 := h2.(scheduled := false);
    assert Transfer(h3, env) == h3;
    var h4 := Apply(h2, RunTasklet(env));
    assert h4.oops;
    var steps := [Answered, RunTasklet(env)];
    assert steps[1..] == [RunTasklet(env)] && steps[1..][1..] == [];
    assert Run(h2, steps[1..]) == Run(h4, []);
    assert AllFit(h2, steps[1..]) && AllFit(h1, steps);
  }

  /** With none, no continuation ends in a null pointer. */
  lemma InactiveIsSafe(h: Host, r: Request, l: Launch, steps: seq<Step>)
    requires Inv(h) && !h.live && h.pio == NoXfer
    ensures !EndsInOops(h, r, l, steps)
  {
    hide Inv, Apply, Fits, Submit;
    var s := NewRequest(r, l);
    if Fits(h, s) && NoRequests(steps) && AllFit(Apply(h, s), steps) {
      InvNotOops(h);
      StepKeeps(h, s);
      StepTame(h, s);
      NoRequestsCareful(Apply(h, s), steps);
      CarefulRuns(Apply(h, s), steps);
    }
  }

  /** A request without data may end in a null pointer exactly when a transfer, of either direction,
      was left active before it. */
  lemma DatalessOopsIff(h: Host, r: Request)
    requires Inv(h) && !h.live && GoodRequest(r) && r.data.None?
    ensures (exists l, steps :: EndsInOops(h, r, l, steps)) <==> h.pio != NoXfer
  {
    if h.pio != NoXfer {
      ActiveEndsInOops(h, r);
    } else {
      forall l, steps ensures !EndsInOops(h, r, l, steps) { InactiveIsSafe(h, r, l, steps); }
    }
  }

  // ---- With nothing arriving at rest ----

  predicate SafeTame(h: Host) { Safe(h) && !h.oops && Tame(h) }

  lemma QuietStepTame(h: Host, s: Step)
    requires SafeTame(h) && FitsQuiet(h, s) && Careful(h, s)
    ensures SafeTame(Apply(h, s))
  {
    hide Tasklet, Submit, Irq, Inv, Stuck, Lost, GoodRequest, Spares, SparesLaunch, AtMostOnce, AllOnce,
      StruckEarly, Quiet, Safe, Tame, Careful;
    QuietStepSafe(h, s);
    SafeIs(h);
    AllOnceIff(h);
    if s.NewRequest? {
      GoodId(s.r, |h.done|);
      QuietSubmitTame(h, s.r, s.l);
    } else if Stuck(h) {
      StuckStays(h, s);
      StuckTame(Apply(h, s));
    } else if Lost(h) {
      LostTame(h, s);
    } else {
      if s.RunTasklet? { LiveSpares(h, s.env); }
      StepTame(h, s);
    }
  }

  lemma SafeIs(h: Host)
    requires SafeTame(h)
    ensures Inv(h) || Stuck(h) || Lost(h)
    ensures !h.oops && Tame(h)
  {
  }

  lemma StuckTame(h: Host)
    requires Stuck(h)
    ensures !h.oops && Tame(h)
  {
  }

  lemma LostTame(h: Host, s: Step)
    requires Lost(h) && !s.NewRequest?
    ensures !Apply(h, s).oops && Tame(Apply(h, s))
  {
    if TimesOut(s) {
      assert Apply(h, s) == Fail(h);
    } else {
      hide Apply;
      LostStays(h, s);
    }
  }

  lemma QuietSubmitTame(h: Host, r: Request, l: Launch)
    requires Inv(h) || Stuck(h) || Lost(h)
    requires AllOnce(h.done, |h.done|) && GoodRequest(r) && GoodRequest(r.(id := |h.done|)) && QuietLaunch(l)
    requires Careful(h, NewRequest(r, l))
    ensures var h' := Submit(h.(done := h.done + [0]), r.(id := |h.done|), l); !h'.oops && Tame(h')
  {
    hide Submit, StruckEarly, SparesLaunch, AtMostOnce, Inv, GoodRequest, AllOnce;
    AllOnceIff(h);
    var r1 := r.(id := |h.done|);
    var h0 := h.(done := h.done + [0]);
    if Stuck(h) {
      StuckSubmitTame(h, r1, l);
    } else {
      StartLaunch(h, r1);
      SparesIffNotEarly(h0, r1, l);
      if StruckEarly(h0, r1, l) { StruckEarlyEnds(h0, r1, l); } else { SubmitTame(h, r1, l); }
    }
  }

  lemma StuckSubmitTame(h: Host, r: Request, l: Launch)
    requires Stuck(h) && GoodRequest(r) && r.id == |h.done|
    ensures var h' := Submit(h.(done := h.done + [0]), r, l); !h'.oops && Tame(h')
  {
    var h0 := HandIn(h.(done := h.done + [0]), r);
    NotScheduled(h0, l.gaps(0));
    if Accepted(r, l) {
      var h1 := ClearStatus(h0, l.flush);
      if r.data.Some? { PrepareIdle(h1, r.data.value, l); }
      var h2 := Prepared(h1, r, l);
      NotScheduled(h2, l.gaps(3));
      NotScheduled(SendCommand(h2, r.rsp, r.data.Some?), l.gaps(4));
      hide Strike, PreparePio;
    }
  }

  /** With nothing arriving at rest and requests without data handed in only when no transfer is
      active, no run at all follows a null pointer. */
  lemma {:induction false} QuietCarefulRuns(h: Host, steps: seq<Step>)
    requires SafeTame(h) && AllQuiet(h, steps) && AllCareful(h, steps)
    ensures SafeTame(Run(h, steps))
    decreases |steps|
  {
    hide Apply, FitsQuiet, Careful, Safe, Tame;
    if steps != [] {
      QuietStepTame(h, steps[0]);
      QuietCarefulRuns(Apply(h, steps[0]), steps[1..]);
    }
  }
}
