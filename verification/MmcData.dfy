/** What becomes of the words of a request: no request with data is completed without an error being
    reported unless all its words have gone through the fifo. */
module MmcData {
  import opened MmcRequests
  import opened MmcRuns

  /** The words of the request in hand are all through, or there is an error, or the transfer is
      still active. */
  predicate Delivered(h: Host) {
    h.mrq.Some? && h.mrq.value.data.Some? ==> h.failed || Wanted(h) == 0 || (h.pio != NoXfer && !h.cmdIsStop)
  }

  // ---- The loops ----

  lemma IrqDelivers(h: Host, st: Status)
    requires Delivered(h)
    ensures Delivered(Irq(h, st))
  {
    IrqFrame(h, st);
    PioFailed(h, st);
    SameWanted(h, Irq(h, st));
    hide Irq, Wanted;
  }

  /** An interrupt that ends the transfer notes an error, unless it is about a stop command. */
  lemma PioFailed(h: Host, st: Status)
    ensures (Irq(h, st).pio == h.pio || Irq(h, st).failed || h.cmdIsStop) && (h.failed ==> Irq(h, st).failed)
  {
    hide Settle, Kick;
    if IrqActive(h) {
      var h1 := Kick(h, st);
      KickFrame(h, st);
      SettleFailed(h1, st);
      SettleFailed(h1.(completeWhat := XferFinish), st);
    }
  }

  lemma SettleFailed(h: Host, st: Status)
    ensures (Settle(h, st).pio == h.pio || Settle(h, st).failed || h.cmdIsStop) && (h.failed ==> Settle(h, st).failed)
  {
  }

  lemma SameWanted(h: Host, h': Host)
    requires h'.mrq == h.mrq && h'.words == h.words && h'.sgptr == h.sgptr
    ensures Wanted(h') == Wanted(h)
  {
  }

  lemma {:induction false} IrqsDeliver(h: Host, sts: seq<Status>)
    requires Delivered(h)
    ensures Delivered(Irqs(h, sts))
    decreases |sts|
  {
    hide Irq, Delivered;
    if sts != [] {
      IrqDelivers(h, sts[0]);
      IrqsDeliver(Irq(h, sts[0]), sts[1..]);
    }
  }

  /** The buffers run out only when nothing is wanted any more or the transfer was given up. */
  lemma RunsOut(h: Host)
    requires Delivered(h) && !WantsMore(h)
    ensures Delivered(Dry(h)) && Delivered(h.(pio := NoXfer))
  {
  }

  lemma LevelDelivers(h: Host, level: nat)
    requires Delivered(h)
    ensures Delivered(h.(fifo := level)) && Delivered(h.(scheduled := false))
  {
  }

  lemma GulpDelivers(h: Host, level: nat, sent: nat)
    requires Delivered(h) && WantsMore(h)
    ensures Delivered(Gulp(h, level)) && Delivered(Push(h, level, sent))
  {
    hide Gulp, Push, Wanted, WantsMore;
    GulpMoves(h, level, sent);
    GulpWanted(h, level);
    SameWanted(Gulp(h, level), Push(h, level, sent));
  }

  lemma {:induction false} ReadDelivers(h: Host, env: Env, k: nat)
    requires Delivered(h)
    ensures Delivered(ReadLoop(h, env, k).0)
    decreases BuffersLeft(h), h.words
  {
    hide Irqs, Gulp, WantsMore, Delivered, Dry;
    var level := h.fifo + env.arrive(k);
    if level != 0 {
      LevelDelivers(h, level);
      IrqsDeliver(h.(fifo := level), env.within(k));
      var h1 := Irqs(h.(fifo := level), env.within(k));
      if WantsMore(h1) {
        RoundShrinks(h, level, env.within(k));
        GulpDelivers(h1, level, 0);
        ReadDelivers(Gulp(h1, level), env, k + 1);
      } else {
        RunsOut(h1);
      }
    }
  }

  lemma LastBuffer(h: Host)
    requires Delivered(h) && h.words == 0
    ensures if HasBuffer(h) then Delivered(TakeBuffer(h)) else Delivered(Dry(h))
  {
  }

  lemma PioReadDelivers(h: Host, env: Env)
    requires Delivered(h)
    ensures Delivered(PioRead(h, env))
  {
    hide ReadLoop, Delivered, Dry, HasBuffer, TakeBuffer;
    ReadDelivers(h, env, 0);
    var (h1, _) := ReadLoop(h, env, 0);
    if h1.words == 0 { LastBuffer(h1); }
  }

  lemma {:induction false} WriteDelivers(h: Host, env: Env, k: nat)
    requires Delivered(h)
    ensures Delivered(PioWrite(h, env, k))
    decreases BuffersLeft(h), h.words
  {
    hide Irqs, Push, WantsMore, Delivered;
    if env.room(k) != 0 {
      IrqsDeliver(h, env.within(k));
      var h1 := Irqs(h, env.within(k));
      if WantsMore(h1) {
        PushShrinks(h, env.room(k), env.sent(k), env.within(k));
        GulpDelivers(h1, env.room(k), env.sent(k));
        WriteDelivers(Push(h1, env.room(k), env.sent(k)), env, k + 1);
      } else {
        RunsOut(h1);
      }
    }
  }

  lemma TransferDelivers(h: Host, env: Env)
    requires Delivered(h)
    ensures Delivered(Transfer(h, env))
  {
    hide Irqs, PioRead, PioWrite, Delivered;
    WriteDelivers(h, env, 0);
    var h1 := if h.pio.Write? then PioWrite(h, env, 0) else h;
    IrqsDeliver(h1, env.between(0));
    var h2 := Irqs(h1, env.between(0));
    PioReadDelivers(h2, env);
    var h3 := if h2.pio.Read? then PioRead(h2, env) else h2;
    IrqsDeliver(h3, env.between(1));
  }

  // ---- Nothing is lost or made up ----

  /** The words that arrive at the looks of the read loop. */
  function Arrived(h: Host, env: Env, k: nat): nat
    decreases BuffersLeft(h), h.words
  {
    var level := h.fifo + env.arrive(k);
    var h1 := Irqs(h.(fifo := level), env.within(k));
    if level == 0 then 0
    else if !WantsMore(h1) then env.arrive(k)
    else
      RoundShrinks(h, level, env.within(k));
      env.arrive(k) + Arrived(Gulp(h1, level), env, k + 1)
  }

  /** What arrives goes into the buffers or stays in the fifo. */
  lemma {:induction false} ReadConserves(h: Host, env: Env, k: nat)
    ensures var h' := ReadLoop(h, env, k).0; h.fifo + Arrived(h, env, k) + Wanted(h') == h'.fifo + Wanted(h)
    decreases BuffersLeft(h), h.words
  {
    hide Irqs, Gulp, WantsMore, Wanted, BuffersLeft;
    var level := h.fifo + env.arrive(k);
    if level != 0 {
      IrqsFrame(h.(fifo := level), env.within(k));
      var h1 := Irqs(h.(fifo := level), env.within(k));
      SameWanted(h, h1);
      SameWanted(h1, Dry(h1));
      if WantsMore(h1) {
        RoundShrinks(h, level, env.within(k));
        GulpWanted(h1, level);
        ReadConserves(Gulp(h1, level), env, k + 1);
      }
    }
  }

  /** The words that leave the fifo while it is filled. */
  function Gone(h: Host, env: Env, k: nat): nat
    decreases BuffersLeft(h), h.words
  {
    if env.room(k) == 0 then 0
    else
      var h1 := Irqs(h, env.within(k));
      if !WantsMore(h1) then 0
      else
        PushShrinks(h, env.room(k), env.sent(k), env.within(k));
        Min(env.sent(k), h1.fifo) + Gone(Push(h1, env.room(k), env.sent(k)), env, k + 1)
  }

  lemma PushConserves(h: Host, room: nat, sent: nat)
    requires WantsMore(h)
    ensures var g := Push(h, room, sent); g.fifo + Min(sent, h.fifo) + Wanted(g) == h.fifo + Wanted(h)
  {
    hide Wanted;
    GulpWanted(h, room);
    SameWanted(Gulp(h, room), Push(h, room, sent));
  }

  /** What leaves the buffers is in the fifo or has left it. */
  lemma {:induction false} WriteConserves(h: Host, env: Env, k: nat)
    ensures var h' := PioWrite(h, env, k); h'.fifo + Gone(h, env, k) + Wanted(h') == h.fifo + Wanted(h)
    decreases BuffersLeft(h), h.words
  {
    hide Irqs, Push, WantsMore, Wanted, BuffersLeft;
    if env.room(k) != 0 {
      IrqsFrame(h, env.within(k));
      var h1 := Irqs(h, env.within(k));
      SameWanted(h, h1);
      SameWanted(h1, h1.(pio := NoXfer));
      if WantsMore(h1) {
        PushShrinks(h, env.room(k), env.sent(k), env.within(k));
        PushConserves(h1, env.room(k), env.sent(k));
        WriteConserves(Push(h1, env.room(k), env.sent(k)), env, k + 1);
      }
    }
  }

  /** Each look moves all it can: it empties the fifo, or uses all the room, or fills or empties the
      current buffer. */
  lemma LookMovesAll(h: Host, level: nat, sent: nat)
    requires WantsMore(h)
    ensures Gulp(h, level).fifo == 0 || Gulp(h, level).words == 0
    ensures var g := Push(h, level, sent); g.words == 0 || Wanted(h) == Wanted(g) + level
  {
    hide Wanted;
    GulpWanted(h, level);
    SameWanted(Gulp(h, level), Push(h, level, sent));
  }

  predicate Roomy(env: Env, k: nat) { env.room(k) > 0 }

  /** A write goes on until a look finds the fifo full. */
  lemma {:induction false} WriteStops(h: Host, env: Env, k: nat)
    requires forall j :: k <= j ==> Roomy(env, j)
    ensures PioWrite(h, env, k).pio == NoXfer
    decreases BuffersLeft(h), h.words
  {
    hide Irqs, Push, WantsMore, BuffersLeft;
    assert Roomy(env, k);
    var h1 := Irqs(h, env.within(k));
    if WantsMore(h1) {
      PushShrinks(h, env.room(k), env.sent(k), env.within(k));
      WriteStops(Push(h1, env.room(k), env.sent(k)), env, k + 1);
    }
  }

  // ---- Completion ----

  /** What the tasklet reports with a request it completes: an error if one was noted, or if the
      transfer was still active. */
  predicate ReportsError(t: Host) { t.failed || t.pio != NoXfer }

  lemma FinishDelivers(t: Host, flush: bool)
    requires t.live && Busy(t) && !t.oops && Delivered(t) && t.mrq.value.data.Some?
    ensures var h' := Finish(t, flush);
      && (h'.live ==> Delivered(h'))
      && (!h'.live ==> (ReportsError(t) || Wanted(t) == 0) && h'.fifo == if ReportsError(t) then 0 else t.fifo)
  {
  }

  /** A run of the tasklet that completes a request with data reports an error, and resets the fifo, or
      all words of the request have gone through it. */
  lemma CompletedDelivered(h: Host, env: Env)
    requires h.live && Busy(h) && !h.oops && Delivered(h) && h.mrq.value.data.Some?
    ensures var h' := Tasklet(h, env); var t := Transfer(h.(scheduled := false), env);
      && (h'.live ==> Delivered(h'))
      && (!h'.live ==> (ReportsError(t) || Wanted(t) == 0) && h'.fifo == if ReportsError(t) then 0 else t.fifo)
  {
    hide Transfer, Busy, Finish, PositiveBuffers, Delivered, Wanted;
    var h0 := h.(scheduled := false);
    BusyWaits(h);
    BusyMoves(h, h0);
    CompletesAll(h0);
    LevelDelivers(h, 0);
    TransferMoves(h0, env);
    TransferDelivers(h0, env);
    var t := Transfer(h0, env);
    BusyMoves(h0, t);
    if h.scheduled && t.completeWhat == Finalize { FinishDelivers(t, env.flush); }
  }

  // ---- Handing in ----

  lemma RestDelivers(h: Host, gap: Option<Env>)
    requires PositiveBuffers(h) && h.completeWhat == Nothing && SparesGap(h, gap) && Delivered(h)
    ensures Delivered(Strike(h, gap))
  {
    hide Transfer, Delivered, Drains;
    if gap.Some? && h.scheduled {
      var env := gap.value;
      var h0 := h.(scheduled := false);
      assert Buffers(h0) == Buffers(h);
      SameDrains(h, env);
      RestFinalizesIff(h0, env);
      LevelDelivers(h, 0);
      TransferDelivers(h0, env);
    }
  }

  lemma {:induction false} FillDelivers(h: Host, r: Request, l: Launch, k: nat)
    requires Launching(h, r) && h.pio != Read && Delivered(h)
    ensures Delivered(Fill(h, l, k))
    decreases BuffersLeft(h), h.words
  {
    hide Strike, Push, WantsMore, BuffersLeft, Launching, Drains, Delivered;
    if l.room(k) != 0 {
      StrikeShrinks(h, l.rounds(k));
      WriteSpares(h, l.rounds(k));
      LaunchStrike(h, r, l.rounds(k));
      LaunchPositive(h, r);
      RestDelivers(h, l.rounds(k));
      var h1 := Strike(h, l.rounds(k));
      if WantsMore(h1) {
        GulpShrinks(h1, l.room(k));
        LaunchPush(h1, r, l.room(k), l.sent(k));
        GulpDelivers(h1, l.room(k), l.sent(k));
        FillDelivers(Push(h1, l.room(k), l.sent(k)), r, l, k + 1);
      } else {
        RunsOut(h1);
      }
    }
  }

  lemma LaunchPositive(h: Host, r: Request)
    requires Launching(h, r)
    ensures PositiveBuffers(h) && h.completeWhat == Nothing
  {
  }

  lemma ActiveDelivers(h: Host)
    requires h.pio != NoXfer && !h.cmdIsStop
    ensures Delivered(h)
  {
  }

  lemma PrepareDelivers(h: Host, r: Request, l: Launch)
    requires Launching(h, r) && r.data.Some? && SparesPrepare(h, l)
    ensures Delivered(PreparePio(h, r.data.value, l))
  {
    hide Fill, Strike, SparesGap, Delivered;
    LaunchStrike(h.(sgptr := 0), r, l.gaps(1));
    LaunchStrike(Rewind(h, l), r, l.gaps(2));
    var h1 := Activate(Strike(Rewind(h, l), l.gaps(2)), r.data.value);
    ActiveDelivers(h1);
    if r.data.value.write { FillDelivers(h1, r, l, 0); }
  }

  lemma SentDelivers(h: Host, r: Request)
    requires Delivered(h)
    ensures Delivered(SendCommand(h, r.rsp, r.data.Some?)) && Delivered(EnableIrq(h))
  {
  }

  lemma TransmitDelivers(h: Host, r: Request, l: Launch)
    requires Launching(h, r) && SparesGap(h, l.gaps(3)) && Delivered(h) && r.data.Some?
    ensures var h' := Transmit(h, r, l); !h'.oops && h'.live ==> Delivered(h')
  {
    hide Tasklet, Launching, Busy, Delivered, SparesGap;
    LaunchStrike(h, r, l.gaps(3));
    LaunchPositive(h, r);
    RestDelivers(h, l.gaps(3));
    var h1 := Strike(h, l.gaps(3));
    SendBusy(h1, r);
    SentDelivers(h1, r);
    var h2 := SendCommand(h1, r.rsp, r.data.Some?);
    LaunchHand(h1, r);
    if l.gaps(4).Some? { CompletedDelivered(h2, l.gaps(4).value); }
    var h3 := Strike(h2, l.gaps(4));
    if h3.live { SentDelivers(h3, r); }
  }

  lemma LaunchHand(h: Host, r: Request)
    requires Launching(h, r)
    ensures h.mrq == Some(r)
  {
  }

  lemma SubmitDelivers(h: Host, r: Request, l: Launch)
    requires Inv(h) && !h.live && GoodRequest(r) && r.id == |h.done|
    requires SparesLaunch(h.(done := h.done + [0]), r, l)
    ensures var h' := Submit(h.(done := h.done + [0]), r, l); !h'.oops && h'.live ==> Delivered(h')
  {
    StartLaunch(h, r);
    hide Strike, PreparePio, Launching, Inv, SparesGap, SparesPrepare, Transmit, ClearStatus, HandIn, Stale, Delivered,
      Reject;
    var h0 := HandIn(h.(done := h.done + [0]), r);
    LaunchFacts(h0, r);
    LaunchStrike(h0, r, l.gaps(0));
    var h1 := Strike(h0, l.gaps(0));
    LaunchFacts(h1, r);
    LaunchClear(h1, r, l);
    var h2 := ClearStatus(h1, l.flush);
    if Accepted(r, l) {
      if r.data.Some? {
        LaunchPrepare(h2, r, l);
        PrepareDelivers(h2, r, l);
        TransmitDelivers(Prepared(h2, r, l), r, l);
      } else {
        DatalessSubmit(h2, r, l);
      }
    } else {
      RejectedRest(h1, r);
      RejectedRest(h2, r);
    }
  }

  lemma RejectedRest(h: Host, r: Request)
    requires Launching(h, r)
    ensures !Reject(h, r.id).live
  {
  }

  lemma DatalessSubmit(h: Host, r: Request, l: Launch)
    requires Launching(h, r) && r.data.None? && SparesGap(h, l.gaps(3))
    ensures var h' := Transmit(h, r, l); !h'.oops && h'.live ==> Delivered(h')
  {
    hide Tasklet, Busy, SparesGap, Inv;
    TransmitHand(h, r, l);
  }

  /** Handing in does not exchange the request. */
  lemma TransmitHand(h: Host, r: Request, l: Launch)
    requires Launching(h, r) && SparesGap(h, l.gaps(3))
    ensures var h' := Transmit(h, r, l); !h'.oops && h'.live ==> h'.mrq == Some(r)
  {
    hide Tasklet, Launching, Busy, SparesGap;
    LaunchStrike(h, r, l.gaps(3));
    var h1 := Strike(h, l.gaps(3));
    SendBusy(h1, r);
    LaunchHand(h1, r);
    LaunchFacts(h1, r);
    var h2 := SendCommand(h1, r.rsp, r.data.Some?);
    if l.gaps(4).Some? { LiveHand(h2, l.gaps(4).value); }
  }

  lemma LiveHand(h: Host, env: Env)
    requires h.live && Busy(h) && !h.oops
    ensures var h' := Tasklet(h, env); h'.live ==> h'.mrq == h.mrq
  {
    hide Transfer, Busy, Finish, PositiveBuffers;
    var h0 := h.(scheduled := false);
    BusyWaits(h);
    BusyMoves(h, h0);
    CompletesAll(h0);
    TransferMoves(h0, env);
    BusyMoves(h0, Transfer(h0, env));
    if h.scheduled { FinishHand(Transfer(h0, env), env.flush); }
  }

  lemma FinishHand(h: Host, flush: bool)
    requires h.mrq.Some?
    ensures Finish(h, flush).live ==> Finish(h, flush).mrq == h.mrq
  {
  }

  // ---- Whole runs ----

  lemma StepDelivers(h: Host, s: Step)
    requires Inv(h) && Fits(h, s) && (h.live ==> Delivered(h))
    ensures !Apply(h, s).oops && Apply(h, s).live ==> Delivered(Apply(h, s))
  {
    hide Tasklet, Submit, Irq, Drains, SparesLaunch, Busy, Delivered, GoodRequest;
    match s
    case Interrupt(st) =>
      IrqFrame(h, st);
      if h.live { IrqDelivers(h, st); }
    case Receive(n) =>
      if h.live { LevelDelivers(h, h.fifo + n); }
    case RunTasklet(env) =>
      if h.live { LiveDelivers(h, env); } else { TaskletAtRest(h, env); }
    case NewRequest(r, l) =>
      GoodId(r, |h.done|);
      SubmitDelivers(h, r.(id := |h.done|), l);
  }

  lemma LiveDelivers(h: Host, env: Env)
    requires h.live && Busy(h) && !h.oops && Delivered(h)
    ensures var h' := Tasklet(h, env); h'.live ==> Delivered(h')
  {
    hide Tasklet, Busy;
    LiveHand(h, env);
    BusyWaits(h);
    if h.mrq.value.data.Some? { CompletedDelivered(h, env); }
  }

  /** In every run in which no left-over tasklet finds all a read left active wants, the words of the
      outstanding request are accounted for. */
  lemma {:induction false} RunDelivers(h: Host, steps: seq<Step>)
    requires Inv(h) && (h.live ==> Delivered(h)) && AllFit(h, steps)
    ensures var h' := Run(h, steps); !h'.oops && h'.live ==> Delivered(h')
    decreases |steps|
  {
    hide Inv, Apply, Fits, Delivered;
    if steps != [] {
      InvNotOops(h);
      var h1 := Apply(h, steps[0]);
      StepKeeps(h, steps[0]);
      StepDelivers(h, steps[0]);
      if h1.oops { OopsStays(h1, steps[1..]); } else { RunDelivers(h1, steps[1..]); }
    }
  }

  lemma {:induction false} OopsStays(h: Host, steps: seq<Step>)
    requires h.oops
    ensures Run(h, steps) == h
    decreases |steps|
  {
    if steps != [] {
      assert Apply(h, steps[0]) == h;
      OopsStays(h, steps[1..]);
    }
  }

  /** So whenever the tasklet completes a request with data, it reports an error or all words of the
      request have gone through the fifo. */
  lemma CompletedWhole(steps: seq<Step>, env: Env)
    requires AllFit(Initial, steps)
    ensures var h := Run(Initial, steps);
      !h.oops && h.live && h.mrq.Some? && h.mrq.value.data.Some? && !Tasklet(h, env).live ==>
        var t := Transfer(h.(scheduled := false), env);
        ReportsError(t) || Wanted(t) == 0
  {
    hide Tasklet, Delivered, Transfer, Wanted;
    RunDelivers(Initial, steps);
    RunKeeps(Initial, steps);
    var h := Run(Initial, steps);
    if !h.oops && h.live && h.mrq.Some? && h.mrq.value.data.Some? { CompletedDelivered(h, env); }
  }
}
