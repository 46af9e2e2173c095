/** Runs of the MMC request machine in which no words arrive while no command is outstanding, as
    none has been sent that would bring any. What the fifo still holds from before may do harm at
    one place only. */
module MmcQuiet {
  import opened MmcRequests
  import opened MmcRuns

  ghost predicate Quiet(env: Env) { forall j :: Still(env, j) }

  ghost predicate QuietGap(gap: Option<Env>) { gap.Some? ==> Quiet(gap.value) }

  /** A read left active has an empty fifo, so a left-over run finalizes nothing. */
  lemma StaleSpares(h: Host, gap: Option<Env>)
    requires Stale(h) && QuietGap(gap)
    ensures SparesGap(h, gap)
  {
    if gap.Some? && h.pio == Read { HandedStill(h, gap.value, 0); }
  }

  lemma IdleSpares(h: Host, gap: Option<Env>)
    requires !h.scheduled || h.pio != Read
    ensures SparesGap(h, gap)
  {
  }

  /** Once struck, a left-over run is over. */
  lemma StruckOnce(h: Host, r: Request, gap: Option<Env>)
    requires Launching(h, r) && SparesGap(h, gap)
    ensures Strike(h, gap).scheduled ==> gap.None?
  {
    hide Transfer, Drains;
    if gap.Some? && h.scheduled {
      var h0 := h.(scheduled := false);
      assert Buffers(h0) == Buffers(h);
      SameDrains(h, gap.value);
      RestFinalizesIff(h0, gap.value);
    }
  }

  /** A left-over run of the tasklet strikes a read between its preparation and its command, and
      the fifo still holds all the words of the request. */
  predicate StruckEarly(h: Host, r: Request, l: Launch) {
    && Accepted(r, l) && r.data.Some? && !r.data.value.write && h.scheduled && !l.flush
    && l.gaps(0).None? && l.gaps(1).None? && l.gaps(2).None? && l.gaps(3).Some?
    && h.fifo >= SumFrom(r.data.value.sg, 0)
  }

  ghost predicate QuietLaunch(l: Launch) {
    QuietGap(l.gaps(0)) && QuietGap(l.gaps(1)) && QuietGap(l.gaps(2)) && QuietGap(l.gaps(3))
  }

  /** A read whose buffer pointers were reset wants all its words. */
  lemma FreshSpares(h: Host, r: Request, gap: Option<Env>)
    requires Launching(h, r) && r.data.Some? && h.words == 0 && h.sgptr == 0 && QuietGap(gap)
    ensures SparesGap(h, gap) <==>
      !(gap.Some? && h.scheduled && h.pio == Read && h.fifo >= SumFrom(r.data.value.sg, 0))
  {
    if gap.Some? && h.pio == Read {
      HandedStill(h, gap.value, 0);
      assert SumFrom(r.data.value.sg, 0) > 0;
    }
  }

  /** The two places between the assignments of the preparation. */
  lemma PrepareSpares(h: Host, r: Request, l: Launch)
    requires Launching(h, r) && Stale(h) && r.data.Some? && QuietLaunch(l)
    ensures SparesPrepare(h, l)
    ensures var c := Strike(Rewind(h, l), l.gaps(2));
      && Launching(c, r)
      && (c.scheduled ==> l.gaps(1).None? && l.gaps(2).None? && c == h.(sgptr := 0, words := 0))
  {
    hide Tasklet, Drains, GoodRequest, AllOnce;
    var a := h.(sgptr := 0);
    StaleSpares(a, l.gaps(1));
    LaunchStrike(a, r, l.gaps(1));
    StruckOnce(a, r, l.gaps(1));
    var b := Rewind(h, l);
    if b.scheduled && b.pio == Read { FreshSpares(b, r, l.gaps(2)); NotEmpty(h, r); } else { IdleSpares(b, l.gaps(2)); }
    LaunchStrike(b, r, l.gaps(2));
    StruckOnce(b, r, l.gaps(2));
  }

  lemma NotEmpty(h: Host, r: Request)
    requires Launching(h, r) && r.data.Some?
    ensures SumFrom(r.data.value.sg, 0) > 0
  {
  }

  /** With nothing arriving at rest, a request is handed in safely unless it is struck early. */
  lemma SparesIffNotEarly(h: Host, r: Request, l: Launch)
    requires Launching(HandIn(h, r), r) && Stale(h) && QuietLaunch(l)
    ensures SparesLaunch(h, r, l) <==> !StruckEarly(h, r, l)
  {
    hide Tasklet, Drains, GoodRequest, AllOnce, Launching, SparesGap, SparesPrepare, Fill;
    var h0 := HandIn(h, r);
    StaleSpares(h0, l.gaps(0));
    LaunchStrike(h0, r, l.gaps(0));
    StruckOnce(h0, r, l.gaps(0));
    var h1 := Strike(h0, l.gaps(0));
    LaunchClear(h1, r, l);
    var h2 := ClearStatus(h1, l.flush);
    if Accepted(r, l) && r.data.Some? {
      NotEmpty(h2, r);
      PrepareSpares(h2, r, l);
      LastSpares(h2, r, l);
    } else if Accepted(r, l) {
      StaleSpares(h2, l.gaps(3));
    }
  }

  /** The place between the preparation and the command. */
  lemma LastSpares(h: Host, r: Request, l: Launch)
    requires Launching(h, r) && r.data.Some? && QuietLaunch(l) && Accepted(r, l)
    requires var c := Strike(Rewind(h, l), l.gaps(2));
      && Launching(c, r)
      && (c.scheduled ==> l.gaps(1).None? && l.gaps(2).None? && c == h.(sgptr := 0, words := 0))
    ensures SparesGap(PreparePio(h, r.data.value, l), l.gaps(3)) <==>
      !(!r.data.value.write && h.scheduled && l.gaps(1).None? && l.gaps(2).None? && l.gaps(3).Some?
        && h.fifo >= SumFrom(r.data.value.sg, 0))
  {
    hide Tasklet, Drains, Fill, GoodRequest;
    var c := Strike(Rewind(h, l), l.gaps(2));
    var d := Activate(c, r.data.value);
    if r.data.value.write {
      LaunchFill(d, r, l, 0);
      IdleSpares(Fill(d, l, 0), l.gaps(3));
    } else if c.scheduled {
      FreshSpares(d, r, l.gaps(3));
    } else {
      IdleSpares(d, l.gaps(3));
    }
  }

  // ---- A request struck early ----

  /** A command was sent for a request already completed; the interrupt stays disabled. */
  predicate Stuck(h: Host) {
    && h.live && h.depth == 1 && !h.scheduled && !h.oops && !h.cmdIsStop && h.pio == NoXfer
    && h.completeWhat != Nothing && AllOnce(h.done, |h.done|)
  }

  /** The stop command was sent before the command of its request; what is awaited is the end of a
      transfer, which the handler does not look for while a stop command is outstanding. */
  predicate Lost(h: Host) {
    && h.live && h.depth == 0 && !h.scheduled && !h.oops && h.cmdIsStop && h.pio == NoXfer
    && (h.completeWhat == XferFinishRspFin || h.completeWhat == XferFinish)
    && h.mrq.Some? && GoodRequest(h.mrq.value) && h.mrq.value.stop.Some?
    && |h.done| == h.mrq.value.id + 1 && AllOnce(h.done, h.mrq.value.id) && h.done[h.mrq.value.id] == 0
  }

  /** A left-over run finishes a request before its command is sent: it is completed, or its stop
      command is sent. */
  lemma EarlyFinish(h: Host, r: Request, env: Env)
    requires Launching(h, r) && h.scheduled && Drains(h, env)
    ensures var t := Tasklet(h, env); !t.oops && !t.scheduled && t.pio == NoXfer && |t.done| == |h.done|
    ensures var t := Tasklet(h, env);
      if r.stop.None? then t.mrq.None? && !t.live && !t.cmdIsStop && t.depth == 2 && AllOnce(t.done, |t.done|)
      else Launching(t.(cmdIsStop := false, live := false, completeWhat := Nothing), r) && t.live && t.cmdIsStop
  {
    hide Transfer, Drains;
    var h0 := h.(scheduled := false);
    assert Buffers(h0) == Buffers(h);
    SameDrains(h, env);
    TransferMoves(h0, env);
    RestFinalizesIff(h0, env);
  }

  /** What follows a strike that finished the request: the command is sent all the same. */
  lemma SentLate(t: Host, r: Request, gap: Option<Env>)
    requires !t.scheduled && !t.oops && r.data.Some? && GoodRequest(r) && t.pio == NoXfer
    requires if r.stop.None? then !t.cmdIsStop && t.depth == 2 && AllOnce(t.done, |t.done|)
             else Launching(t.(cmdIsStop := false, live := false, completeWhat := Nothing), r) && t.cmdIsStop
    ensures var h' := EnableIrq(Strike(SendCommand(t, r.rsp, true), gap));
      h'.completeWhat == XferFinishRspFin && if r.stop.None? then Stuck(h') else Lost(h')
  {
    NotScheduled(SendCommand(t, r.rsp, true), gap);
  }

  /** The outcome of an early strike: a request without stop command has been completed before its
      command was sent, which leaves the interrupt disabled; one with a stop command is lost. */
  lemma StruckEarlyEnds(h: Host, r: Request, l: Launch)
    requires Launching(HandIn(h, r), r) && QuietLaunch(l) && StruckEarly(h, r, l)
    ensures var h' := Submit(h, r, l);
      && |h'.done| == |h.done| && h'.completeWhat == XferFinishRspFin
      && if r.stop.None? then Stuck(h') else Lost(h')
  {
    hide Tasklet, Drains, AllOnce;
    var c := Activate(HandIn(h, r).(sgptr := 0, words := 0), r.data.value);
    var env := l.gaps(3).value;
    HandedStill(c, env, 0);
    assert Drains(c, env) by { WantsAll(c, r, env); }
    EarlyFinish(c, r, env);
    var t := Strike(c, l.gaps(3));
    SentLate(t, r, l.gaps(4));
    NotScheduled(SendCommand(t, r.rsp, true), l.gaps(4));
    assert Submit(h, r, l) == Transmit(c, r, l);
  }

  lemma WantsAll(h: Host, r: Request, env: Env)
    requires h.mrq == Some(r) && r.data.Some? && h.words == 0 && h.sgptr == 0 && h.pio == Read
    requires Handed(h, env, 0) == Min(h.fifo, Wanted(h)) && h.fifo >= SumFrom(r.data.value.sg, 0)
    ensures Drains(h, env)
  {
  }

  lemma NotScheduled(h: Host, gap: Option<Env>)
    requires !h.scheduled
    ensures Strike(h, gap) == h
  {
  }

  /** With nothing arriving at rest, handing in a request leaves its command outstanding with the
      interrupt disabled exactly when it is struck early and has no stop command. */
  lemma DisabledIff(h: Host, r: Request, l: Launch)
    requires Inv(h) && !h.live && GoodRequest(r) && r.id == |h.done| && QuietLaunch(l)
    ensures var h0 := h.(done := h.done + [0]); var h' := Submit(h0, r, l);
      !h'.oops ==> (h'.live && h'.depth != 0 <==> StruckEarly(h0, r, l) && r.stop.None?)
  {
    hide Submit, StruckEarly, SparesLaunch;
    StartLaunch(h, r);
    var h0 := h.(done := h.done + [0]);
    SparesIffNotEarly(h0, r, l);
    if StruckEarly(h0, r, l) { StruckEarlyEnds(h0, r, l); } else { SubmitKeeps(h, r, l); }
  }

  /** And it leaves a stop command outstanding that awaits the end of a transfer exactly when it is
      struck early and has a stop command. */
  lemma LostIff(h: Host, r: Request, l: Launch)
    requires Inv(h) && !h.live && GoodRequest(r) && r.id == |h.done| && QuietLaunch(l)
    ensures var h0 := h.(done := h.done + [0]); var h' := Submit(h0, r, l);
      !h'.oops ==>
        (h'.live && h'.cmdIsStop && h'.completeWhat == XferFinishRspFin <==> StruckEarly(h0, r, l) && r.stop.Some?)
  {
    hide Submit, StruckEarly, SparesLaunch;
    StartLaunch(h, r);
    var h0 := h.(done := h.done + [0]);
    SparesIffNotEarly(h0, r, l);
    if StruckEarly(h0, r, l) { StruckEarlyEnds(h0, r, l); } else { SubmitKeeps(h, r, l); }
  }

  // ---- A lost request ----

  predicate TimesOut(s: Step) { s.Interrupt? && s.st.timeout }

  lemma LostStays(h: Host, s: Step)
    requires Lost(h) && !s.NewRequest? && !TimesOut(s)
    ensures Lost(Apply(h, s)) && Apply(h, s).done == h.done
  {
  }

  /** Whatever else happens, short of a command timeout, a lost request is never completed. */
  lemma {:induction false} LostUntilTimeout(h: Host, steps: seq<Step>)
    requires Lost(h) && forall i :: 0 <= i < |steps| ==> !steps[i].NewRequest? && !TimesOut(steps[i])
    ensures Lost(Run(h, steps)) && Run(h, steps).done == h.done
    decreases |steps|
  {
    hide Lost, Apply;
    if steps != [] {
      LostStays(h, steps[0]);
      LostUntilTimeout(Apply(h, steps[0]), steps[1..]);
    }
  }

  /** A command timeout lets the next run of the tasklet complete it. */
  lemma TimeoutEndsLost(h: Host, st: Status, env: Env)
    requires Lost(h) && st.timeout
    ensures Inv(Irq(h, st)) && Irq(h, st).scheduled && Irq(h, st).done == h.done
    ensures var h' := Tasklet(Irq(h, st), env);
      !h'.oops && !h'.live && h'.done == h.done[h.mrq.value.id := 1]
  {
    var h1 := Irq(h, st);
    assert h1 == Fail(h);
    assert Buffers(h1) == h.mrq.value.data.value.sg;
    var h2 := h1.(scheduled := false);
    FinalizedIrqs(h2, env.between(0));
    FinalizedIrqs(h2, env.between(1));
  }

  // ---- After a stuck request ----

  /** With no run of the tasklet left over, filling the fifo only moves words. */
  lemma {:induction false} FillIdle(h: Host, l: Launch, k: nat)
    requires !h.scheduled
    ensures var f := Fill(h, l, k); f == h.(words := f.words, sgptr := f.sgptr, fifo := f.fifo, pio := f.pio)
    decreases BuffersLeft(h), h.words
  {
    hide Strike, Push, Gulp, WantsMore, BuffersLeft;
    if l.room(k) != 0 {
      NotScheduled(h, l.rounds(k));
      if WantsMore(h) {
        GulpShrinks(h, l.room(k));
        GulpMoves(h, l.room(k), l.sent(k));
        SameLeft(Gulp(h, l.room(k)), Push(h, l.room(k), l.sent(k)).fifo);
        FillIdle(Push(h, l.room(k), l.sent(k)), l, k + 1);
      }
    }
  }

  /** The next accepted request ends the stuck state; a rejected one leaves it. */
  lemma NextEndsStuck(h: Host, r: Request, l: Launch)
    requires Stuck(h) && GoodRequest(r) && r.id == |h.done|
    ensures var h' := Submit(h.(done := h.done + [0]), r, l);
      |h'.done| == |h.done| + 1 && if Accepted(r, l) then Inv(h') && h'.live else Stuck(h')
  {
    var h0 := HandIn(h.(done := h.done + [0]), r);
    NotScheduled(h0, l.gaps(0));
    if Accepted(r, l) {
      var h1 := ClearStatus(h0, l.flush);
      if r.data.Some? { PrepareIdle(h1, r.data.value, l); }
      var h2 := Prepared(h1, r, l);
      NotScheduled(h2, l.gaps(3));
      var h3 := SendCommand(h2, r.rsp, r.data.Some?);
      NotScheduled(h3, l.gaps(4));
      hide Strike, PreparePio;
      assert Buffers(EnableIrq(h3)) == if r.data.Some? then r.data.value.sg else [];
    }
  }

  lemma PrepareIdle(h: Host, d: Data, l: Launch)
    requires !h.scheduled
    ensures var p := PreparePio(h, d, l); p == h.(words := p.words, sgptr := p.sgptr, fifo := p.fifo, pio := p.pio)
  {
    NotScheduled(h.(sgptr := 0), l.gaps(1));
    NotScheduled(Rewind(h, l), l.gaps(2));
    hide Strike, Fill;
    FillIdle(Activate(h.(sgptr := 0, words := 0), d), l, 0);
  }

  // ---- Whole runs ----

  /** Requests come one at a time: the next one when all before are completed, which includes one
      that was struck early. */
  ghost predicate FitsQuiet(h: Host, s: Step) {
    match s
    case Interrupt(_) => true
    case Receive(_) => true
    case RunTasklet(env) => !h.live ==> Quiet(env)
    case NewRequest(r, l) => AllOnce(h.done, |h.done|) && GoodRequest(r) && QuietLaunch(l)
  }

  ghost predicate AllQuiet(h: Host, steps: seq<Step>)
    decreases |steps|
  {
    steps == [] || h.oops || (FitsQuiet(h, steps[0]) && AllQuiet(Apply(h, steps[0]), steps[1..]))
  }

  predicate Safe(h: Host) { (h.oops || Inv(h) || Stuck(h) || Lost(h)) && AtMostOnce(h.done) }

  lemma StuckStays(h: Host, s: Step)
    requires Stuck(h) && !s.NewRequest?
    ensures Stuck(Apply(h, s)) && AtMostOnce(Apply(h, s).done)
  {
  }

  lemma LiveSpares(h: Host, env: Env)
    requires Inv(h) && (h.live || Quiet(env))
    ensures Spares(h, env)
  {
    if !h.live { StaleSpares(h, Some(env)); }
  }

  /** All requests are completed exactly when nothing is outstanding or the host is stuck. */
  lemma AllOnceIff(h: Host)
    requires Inv(h) || Stuck(h) || Lost(h)
    ensures AllOnce(h.done, |h.done|) <==> !h.live || Stuck(h)
    ensures AtMostOnce(h.done) && (Lost(h) ==> h.live)
  {
  }

  lemma LostStepSafe(h: Host, s: Step)
    requires Lost(h) && !s.NewRequest?
    ensures Safe(Apply(h, s))
  {
    if TimesOut(s) {
      TimeoutEndsLost(h, s.st, Env(_ => 0, _ => 0, _ => 0, _ => [], _ => [], false));
    } else {
      hide Apply;
      LostStays(h, s);
    }
    AllOnceIff(Apply(h, s));
  }

  lemma QuietStepSafe(h: Host, s: Step)
    requires Safe(h) && !h.oops && FitsQuiet(h, s)
    ensures Safe(Apply(h, s))
  {
    hide Tasklet, Submit, Irq, Inv, Stuck, Lost, GoodRequest, Spares, SparesLaunch, AtMostOnce, AllOnce,
      StruckEarly, Quiet;
    AllOnceIff(h);
    if s.NewRequest? {
      GoodId(s.r, |h.done|);
      QuietSubmitSafe(h, s.r.(id := |h.done|), s.l);
    } else if Stuck(h) {
      StuckStays(h, s);
    } else if Lost(h) {
      LostStepSafe(h, s);
    } else {
      match s
      case Interrupt(st) => IrqKeeps(h, st);
      case Receive(n) => ReceiveKeeps(h, n);
      case RunTasklet(env) =>
        LiveSpares(h, env);
        TaskletKeeps(h, env);
    }
  }

  lemma QuietSubmitSafe(h: Host, r: Request, l: Launch)
    requires Inv(h) || Stuck(h) || Lost(h)
    requires AllOnce(h.done, |h.done|) && GoodRequest(r) && r.id == |h.done| && QuietLaunch(l)
    ensures Safe(Submit(h.(done := h.done + [0]), r, l))
  {
    hide Submit, StruckEarly, SparesLaunch, AtMostOnce, Inv, Stuck, Lost, GoodRequest, AllOnce;
    AllOnceIff(h);
    var h0 := h.(done := h.done + [0]);
    if Stuck(h) {
      NextEndsStuck(h, r, l);
      AllOnceIff(Submit(h0, r, l));
    } else {
      StartLaunch(h, r);
      SparesIffNotEarly(h0, r, l);
      if StruckEarly(h0, r, l) {
        StruckEarlyEnds(h0, r, l);
        AllOnceIff(Submit(h0, r, l));
      } else {
        SubmitKeeps(h, r, l);
      }
    }
  }

  lemma {:induction false} QuietRunSafe(h: Host, steps: seq<Step>)
    requires Safe(h) && AllQuiet(h, steps)
    ensures Safe(Run(h, steps))
    decreases |steps|
  {
    hide Safe, Apply, FitsQuiet;
    if steps != [] {
      if h.oops {
        assert Apply(h, steps[0]) == h by { Halted(h, steps[0]); }
        QuietRunSafe(h, steps[1..]);
      } else {
        QuietStepSafe(h, steps[0]);
        QuietRunSafe(Apply(h, steps[0]), steps[1..]);
      }
    }
  }

  /** Whatever the fifo holds: with nothing arriving while no command is outstanding, no request is
      ever completed twice; all are completed exactly when nothing is outstanding or a request was
      struck early; and only then may the interrupt be disabled with a command outstanding. */
  lemma CompletedAtMostOnce(steps: seq<Step>)
    requires AllQuiet(Initial, steps)
    ensures var h := Run(Initial, steps);
      && AtMostOnce(h.done)
      && (!h.oops ==>
            && (h.completeWhat != Nothing <==> h.live) && h.depth <= 1
            && (AllOnce(h.done, |h.done|) <==> !h.live || Stuck(h))
            && (h.depth == 0 <==> h.live && !Stuck(h)))
  {
    QuietRunSafe(Initial, steps);
    var h := Run(Initial, steps);
    if !h.oops { AllOnceIff(h); }
  }
}
