/** Runs of the MMC request machine: which interleavings complete every request exactly once, and
    which follow a null pointer. */
module MmcRuns {
  import opened MmcRequests

  /** A request without data is answered by the hardware and has no stop command; a transfer has
      buffers, none of them empty. */
  predicate GoodRequest(r: Request) {
    && (r.stop.Some? || r.suppressed ==> r.data.Some?)
    && (r.data.Some? ==> r.data.value.sg != [] && forall i :: 0 <= i < |r.data.value.sg| ==> r.data.value.sg[i] > 0)
  }

  /** Words may also arrive while a command is outstanding and nobody looks. */
  datatype Step = Interrupt(st: Status) | RunTasklet(env: Env) | Receive(n: nat) | NewRequest(r: Request, l: Launch)

  /** A request gets the next number. */
  function Apply(h: Host, s: Step): Host {
    if h.oops then h
    else match s
      case Interrupt(st) => Irq(h, st)
      case RunTasklet(env) => Tasklet(h, env)
      case Receive(n) => if h.live then h.(fifo := h.fifo + n) else h
      case NewRequest(r, l) => Submit(h.(done := h.done + [0]), r.(id := |h.done|), l)
  }

  function Run(h: Host, steps: seq<Step>): Host
    decreases |steps|
  {
    if steps == [] then h else Run(Apply(h, steps[0]), steps[1..])
  }

  // ---- The invariant ----

  /** All requests before the n-th were completed once. */
  predicate AllOnce(done: seq<nat>, n: nat) { n <= |done| && forall i :: 0 <= i < n ==> done[i] == 1 }

  predicate AtMostOnce(done: seq<nat>) { forall i :: 0 <= i < |done| ==> done[i] <= 1 }

  /** The request in hand while a command is outstanding. */
  predicate Busy(h: Host) {
    && h.mrq.Some? && GoodRequest(h.mrq.value) && |h.done| == h.mrq.value.id + 1
    && AllOnce(h.done, h.mrq.value.id) && h.done[h.mrq.value.id] == 0
    && h.completeWhat != Nothing && (h.cmdIsStop ==> h.mrq.value.stop.Some? && StopAwaited(h.completeWhat))
  }

  /** What a stop command that was sent may wait for: it has no data. */
  predicate StopAwaited(w: Waitfor) { w == RspFin || w == CmdSent || w == Finalize }

  /** A read left active has room in its buffer, and the fifo was found empty. */
  predicate Stale(h: Host) { h.pio == Read ==> h.words > 0 && h.fifo == 0 }

  /** Between steps: the interrupt is enabled exactly while a command is outstanding; otherwise
      nothing is awaited and every request was completed. */
  predicate Inv(h: Host) {
    && h.depth == (if h.live then 0 else 1) && PositiveBuffers(h) && !h.oops
    && (h.live ==> Busy(h))
    && (!h.live ==> h.completeWhat == Nothing && Stale(h) && AllOnce(h.done, |h.done|) && Rejected(h))
  }

  /** At rest the host may still point to a request that was rejected on the spot. */
  predicate Rejected(h: Host) {
    h.mrq.Some? ==> !h.cmdIsStop && h.mrq.value.data.Some? && h.mrq.value.id < |h.done|
  }

  /** A run of the tasklet with nothing outstanding finalizes nothing. */
  predicate Spares(h: Host, env: Env) { h.scheduled && h.completeWhat == Nothing ==> !Drains(h, env) }

  predicate SparesGap(h: Host, gap: Option<Env>) { gap.Some? ==> Spares(h, gap.value) }

  // ---- The tasklet ----

  lemma IrqKeeps(h: Host, st: Status)
    requires Inv(h)
    ensures Inv(Irq(h, st)) && Irq(h, st).done == h.done
  {
    hide Irq;
    IrqFrame(h, st);
  }

  /** A run of the tasklet while nothing is outstanding. */
  lemma TaskletAtRest(h: Host, env: Env)
    requires PositiveBuffers(h) && h.completeWhat == Nothing && Spares(h, env)
    ensures var h' := Tasklet(h, env);
      && Moved(h, h') && h'.completeWhat == Nothing && (Stale(h') || h' == h)
  {
    hide Transfer;
    var h0 := h.(scheduled := false);
    assert Buffers(h0) == Buffers(h);
    SameDrains(h, env);
    TransferMoves(h0, env);
    RestFinalizesIff(h0, env);
  }

  lemma SameDrains(h: Host, env: Env)
    ensures Drains(h.(scheduled := false), env) == Drains(h, env)
  {
    HandedFlag(h, env, 0);
  }

  lemma {:induction false} HandedFlag(h: Host, env: Env, k: nat)
    ensures Handed(h.(scheduled := false), env, k) == Handed(h, env, k)
    decreases BuffersLeft(h), h.words
  {
    hide Gulp, Gulped, WantsMore;
    FlagFree(h, h.fifo + env.arrive(k));
    if h.fifo + env.arrive(k) > 0 && WantsMore(h) {
      GulpShrinks(h, h.fifo + env.arrive(k));
      HandedFlag(Gulp(h, h.fifo + env.arrive(k)), env, k + 1);
    }
  }

  lemma FlagFree(h: Host, level: nat)
    ensures var g := h.(scheduled := false);
      && WantsMore(g) == WantsMore(h)
      && (WantsMore(h) ==>
            Gulp(g, level) == Gulp(h, level).(scheduled := false) && Gulped(g, level) == Gulped(h, level))
  {
  }

  lemma BusyMoves(h: Host, h': Host)
    requires Busy(h) && Moved(h, h') && h'.completeWhat != Nothing
    ensures Busy(h')
  {
  }

  /** The end of a run in which everything awaited has happened. */
  lemma FinishLive(h: Host, flush: bool)
    requires h.live && Busy(h) && !h.oops && Stale(h)
    ensures var h' := Finish(h, flush);
      if h.pio != NoXfer && h.mrq.value.data.None? then h' == h.(oops := true)
      else if h'.live then Busy(h') && !h'.oops && h'.depth == h.depth && h'.mrq == h.mrq
      else !h'.oops && h'.completeWhat == Nothing && Stale(h') && h'.depth == h.depth + 1 && h'.mrq == None
           && h'.done == h.done[h.mrq.value.id := 1]
    ensures Finish(h, flush).pio == h.pio && Finish(h, flush).scheduled == h.scheduled
  {
  }

  lemma CompletesAll(h: Host)
    requires Busy(h)
    ensures AllOnce(h.done[h.mrq.value.id := 1], |h.done|) && AtMostOnce(h.done) && PositiveBuffers(h)
  {
  }

  /** A run of the tasklet while a command is outstanding: it stays outstanding, or its stop
      command follows, or the request is completed for the first and only time. */
  lemma TaskletLive(h: Host, env: Env)
    requires h.live && Busy(h) && !h.oops
    ensures var h' := Tasklet(h, env);
      || (h'.oops && h'.done == h.done)
      || (h'.live && Busy(h') && h'.depth == h.depth && !h'.oops)
      || (!h'.live && h'.completeWhat == Nothing && Stale(h') && AllOnce(h'.done, |h'.done|)
          && h'.depth == h.depth + 1 && h'.mrq == None && !h'.oops)
    ensures var h' := Tasklet(h, env);
      PositiveBuffers(h') && |h'.done| == |h.done| && AtMostOnce(h'.done)
  {
    hide Transfer, Busy, AllOnce, AtMostOnce, PositiveBuffers, Finish;
    var h0 := h.(scheduled := false);
    BusyWaits(h);
    BusyMoves(h, h0);
    CompletesAll(h0);
    CompletesAll(h);
    TransferMoves(h0, env);
    var h1 := Transfer(h0, env);
    BusyMoves(h0, h1);
    CompletesAll(h1);
    FinishLive(h1, env.flush);
    var h' := Tasklet(h, env);
    if h'.live && Busy(h') { CompletesAll(h'); }
    SameBuffers(h1, h');
    OnceAtMost(h'.done);
  }

  lemma BusyWaits(h: Host)
    requires Busy(h)
    ensures h.completeWhat != Nothing && h.mrq.Some? && h.mrq.value.id < |h.done|
  {
  }

  lemma SameBuffers(h: Host, h': Host)
    ensures (h'.mrq == h.mrq || h'.mrq == None) && PositiveBuffers(h) ==> PositiveBuffers(h')
  {
    if h'.mrq == h.mrq { assert Buffers(h') == Buffers(h); }
  }

  lemma OnceAtMost(done: seq<nat>)
    ensures AllOnce(done, |done|) ==> AtMostOnce(done)
  {
  }

  lemma TaskletKeeps(h: Host, env: Env)
    requires Inv(h) && Spares(h, env)
    ensures var h' := Tasklet(h, env);
      (h'.oops || Inv(h')) && |h'.done| == |h.done| && AtMostOnce(h'.done)
  {
    hide Tasklet, Busy, Drains;
    if h.live {
      TaskletLive(h, env);
    } else {
      TaskletAtRest(h, env);
      SameBuffers(h, Tasklet(h, env));
      OnceAtMost(h.done);
    }
  }

  // ---- A new request ----

  /** Between being handed in and being sent, a request is the only one not completed. */
  predicate Launching(h: Host, r: Request) {
    && GoodRequest(r) && h.mrq == Some(r) && !h.cmdIsStop && !h.live && h.depth == 1 && !h.oops
    && h.completeWhat == Nothing && |h.done| == r.id + 1 && AllOnce(h.done, r.id) && h.done[r.id] == 0
  }

  lemma LaunchStrike(h: Host, r: Request, gap: Option<Env>)
    requires Launching(h, r) && SparesGap(h, gap)
    ensures var h' := Strike(h, gap);
      && Launching(h', r) && (Stale(h) ==> Stale(h')) && (h.pio == NoXfer ==> h'.pio == NoXfer)
      && (h'.pio == h.pio || h'.pio == NoXfer)
  {
    hide Tasklet, Drains;
    if gap.Some? { TaskletAtRest(h, gap.value); }
  }

  /** Every place at which a left-over run may strike before the command is sent is spared. */
  predicate SparesPrepare(h: Host, l: Launch) {
    && SparesGap(h.(sgptr := 0), l.gaps(1))
    && SparesGap(Rewind(h, l), l.gaps(2))
  }

  predicate Accepted(r: Request, l: Launch) { !r.suppressed && !Refused(r, l) }

  function Prepared(h: Host, r: Request, l: Launch): Host {
    if r.data.Some? then PreparePio(h, r.data.value, l) else h
  }

  predicate SparesLaunch(h: Host, r: Request, l: Launch) {
    && SparesGap(HandIn(h, r), l.gaps(0))
    && (Accepted(r, l) ==>
          var h1 := ClearStatus(Strike(HandIn(h, r), l.gaps(0)), l.flush);
          (r.data.Some? ==> SparesPrepare(h1, l)) && SparesGap(Prepared(h1, r, l), l.gaps(3)))
  }

  /** A write in preparation: a left-over run may write along, but completes nothing. */
  lemma {:induction false} LaunchFill(h: Host, r: Request, l: Launch, k: nat)
    requires Launching(h, r) && h.pio != Read
    ensures Launching(Fill(h, l, k), r) && Fill(h, l, k).pio != Read
    decreases BuffersLeft(h), h.words
  {
    hide Strike, Push, WantsMore, BuffersLeft, Launching, Drains;
    if l.room(k) != 0 {
      StrikeShrinks(h, l.rounds(k));
      WriteSpares(h, l.rounds(k));
      LaunchStrike(h, r, l.rounds(k));
      var h1 := Strike(h, l.rounds(k));
      if WantsMore(h1) {
        GulpShrinks(h1, l.room(k));
        LaunchPush(h1, r, l.room(k), l.sent(k));
        LaunchFill(Push(h1, l.room(k), l.sent(k)), r, l, k + 1);
      } else {
        LaunchEnd(h1, r);
      }
    }
  }

  lemma WriteSpares(h: Host, gap: Option<Env>)
    requires h.pio != Read
    ensures SparesGap(h, gap)
  {
  }

  lemma LaunchPush(h: Host, r: Request, room: nat, sent: nat)
    requires Launching(h, r) && WantsMore(h)
    ensures var g := Push(h, room, sent);
      && Launching(g, r) && g.pio == h.pio
      && NoFurther(Gulp(h, room), g) && NoFurther(g, Gulp(h, room))
  {
  }

  lemma LaunchEnd(h: Host, r: Request)
    requires Launching(h, r)
    ensures Launching(h.(pio := NoXfer), r)
  {
  }

  lemma LaunchPrepare(h: Host, r: Request, l: Launch)
    requires Launching(h, r) && r.data.Some? && SparesPrepare(h, l)
    ensures Launching(PreparePio(h, r.data.value, l), r)
    ensures r.data.value.write ==> PreparePio(h, r.data.value, l).pio != Read
  {
    hide Fill, Strike, SparesGap;
    LaunchStrike(h.(sgptr := 0), r, l.gaps(1));
    LaunchStrike(Rewind(h, l), r, l.gaps(2));
    var h1 := Activate(Strike(Rewind(h, l), l.gaps(2)), r.data.value);
    if r.data.value.write { LaunchFill(h1, r, l, 0); }
  }

  lemma RejectKeeps(h: Host, r: Request)
    requires Launching(h, r) && Stale(h) && r.data.Some?
    ensures Inv(Reject(h, r.id)) && |Reject(h, r.id).done| == |h.done| && AtMostOnce(Reject(h, r.id).done)
  {
  }

  lemma SendBusy(h: Host, r: Request)
    requires Launching(h, r)
    ensures var h1 := SendCommand(h, r.rsp, r.data.Some?); h1.live && Busy(h1) && h1.depth == 1 && !h1.oops
  {
  }

  lemma EnableKeeps(h: Host)
    requires !h.oops && PositiveBuffers(h) && (h.live ==> Busy(h) && h.depth == 1)
    requires !h.live ==>
      h.completeWhat == Nothing && Stale(h) && AllOnce(h.done, |h.done|) && h.depth == 2 && h.mrq == None
    ensures Inv(EnableIrq(h))
  {
    SameBuffers(h, EnableIrq(h));
    if h.live { BusyDepth(h, EnableIrq(h)); }
  }

  lemma BusyDepth(h: Host, h': Host)
    requires Busy(h) && h' == h.(depth := h'.depth)
    ensures Busy(h')
  {
  }

  lemma TransmitKeeps(h: Host, r: Request, l: Launch)
    requires Launching(h, r) && SparesGap(h, l.gaps(3))
    ensures var h' := Transmit(h, r, l);
      (h'.oops || Inv(h')) && |h'.done| == |h.done| && AtMostOnce(h'.done)
  {
    hide Tasklet, Launching, Busy, AllOnce, AtMostOnce, PositiveBuffers, SparesGap, Stale;
    LaunchStrike(h, r, l.gaps(3));
    var h1 := Strike(h, l.gaps(3));
    LaunchFacts(h, r);
    LaunchFacts(h1, r);
    SendBusy(h1, r);
    var h2 := SendCommand(h1, r.rsp, r.data.Some?);
    CompletesAll(h2);
    if l.gaps(4).Some? { TaskletLive(h2, l.gaps(4).value); }
    var h3 := Strike(h2, l.gaps(4));
    if !h3.oops { EnableKeeps(h3); }
  }

  lemma LaunchFacts(h: Host, r: Request)
    requires Launching(h, r)
    ensures !h.oops && |h.done| == r.id + 1 && h.completeWhat == Nothing && !h.live && h.depth == 1
  {
  }

  lemma StartLaunch(h: Host, r: Request)
    requires Inv(h) && !h.live && GoodRequest(r) && r.id == |h.done|
    ensures var h0 := HandIn(h.(done := h.done + [0]), r); Launching(h0, r) && Stale(h0) && h0.pio == h.pio
  {
  }

  lemma LaunchClear(h: Host, r: Request, l: Launch)
    requires Launching(h, r)
    ensures var h1 := ClearStatus(h, l.flush); Launching(h1, r) && (Stale(h) ==> Stale(h1)) && h1.pio == h.pio
  {
  }

  /** Handing in a request while none is outstanding. */
  lemma SubmitKeeps(h: Host, r: Request, l: Launch)
    requires Inv(h) && !h.live && GoodRequest(r) && r.id == |h.done|
    requires SparesLaunch(h.(done := h.done + [0]), r, l)
    ensures var h' := Submit(h.(done := h.done + [0]), r, l);
      (h'.oops || Inv(h')) && |h'.done| == |h.done| + 1 && AtMostOnce(h'.done)
  {
    StartLaunch(h, r);
    assert r.suppressed ==> r.data.Some?;
    hide Strike, PreparePio, Reject, Launching, Inv, GoodRequest, AtMostOnce, SparesGap, SparesPrepare,
      Transmit, ClearStatus, HandIn, Stale;
    var h0 := HandIn(h.(done := h.done + [0]), r);
    LaunchFacts(h0, r);
    LaunchStrike(h0, r, l.gaps(0));
    var h1 := Strike(h0, l.gaps(0));
    LaunchFacts(h1, r);
    LaunchClear(h1, r, l);
    var h2 := ClearStatus(h1, l.flush);
    LaunchFacts(h2, r);
    if r.suppressed {
      RejectKeeps(h1, r);
    } else if Refused(r, l) {
      RejectKeeps(h2, r);
    } else {
      if r.data.Some? { LaunchPrepare(h2, r, l); }
      var h3 := Prepared(h2, r, l);
      LaunchFacts(h3, r);
      TransmitKeeps(h3, r, l);
    }
  }

  // ---- Whole runs ----

  /** Requests come one at a time, and no left-over run of the tasklet finds all the words a read
      left active still wants. */
  predicate Fits(h: Host, s: Step) {
    match s
    case Interrupt(_) => true
    case Receive(_) => true
    case RunTasklet(env) => Spares(h, env)
    case NewRequest(r, l) =>
      !h.live && GoodRequest(r) && SparesLaunch(h.(done := h.done + [0]), r.(id := |h.done|), l)
  }

  predicate AllFit(h: Host, steps: seq<Step>)
    decreases |steps|
  {
    steps == [] || h.oops || (Fits(h, steps[0]) && AllFit(Apply(h, steps[0]), steps[1..]))
  }

  predicate Sound(h: Host) { (h.oops || Inv(h)) && AtMostOnce(h.done) }

  lemma ReceiveKeeps(h: Host, n: nat)
    requires Inv(h)
    ensures Inv(Apply(h, Receive(n))) && Apply(h, Receive(n)).done == h.done
  {
    if h.live {
      var h' := h.(fifo := h.fifo + n);
      SameBuffers(h, h');
      assert Busy(h');
    }
  }

  lemma GoodId(r: Request, id: nat)
    requires GoodRequest(r)
    ensures GoodRequest(r.(id := id))
  {
  }

  lemma StepKeeps(h: Host, s: Step)
    requires Sound(h) && !h.oops && Fits(h, s)
    ensures Sound(Apply(h, s))
  {
    hide Tasklet, Submit, Irq, Inv, GoodRequest, Spares, SparesLaunch, AtMostOnce;
    match s
    case Interrupt(st) => IrqKeeps(h, st);
    case Receive(n) => ReceiveKeeps(h, n);
    case RunTasklet(env) =>
      TaskletKeeps(h, env);
    case NewRequest(r, l) =>
      GoodId(r, |h.done|);
      InvNotOops(h);
      SubmitKeeps(h, r.(id := |h.done|), l);
  }

  lemma InvNotOops(h: Host)
    requires Inv(h)
    ensures !h.oops && AtMostOnce(h.done)
  {
  }

  lemma {:induction false} RunKeeps(h: Host, steps: seq<Step>)
    requires Sound(h) && AllFit(h, steps)
    ensures Sound(Run(h, steps))
    decreases |steps|
  {
    hide Sound, Apply, Fits;
    if steps != [] {
      if h.oops {
        Halted(h, steps[0]);
        RunKeeps(h, steps[1..]);
      } else {
        StepKeeps(h, steps[0]);
        RunKeeps(Apply(h, steps[0]), steps[1..]);
      }
    }
  }

  lemma Halted(h: Host, s: Step)
    requires h.oops
    ensures Apply(h, s) == h && forall ss :: AllFit(h, ss)
  {
  }

  /** Over all interleavings: no request is completed twice; whenever nothing is awaited, every
      request handed in has been completed; the interrupt is enabled exactly while a command is
      outstanding. */
  lemma CompletedOnce(steps: seq<Step>)
    requires AllFit(Initial, steps)
    ensures var h := Run(Initial, steps);
      && AtMostOnce(h.done)
      && (!h.oops ==>
            && (h.completeWhat == Nothing ==> AllOnce(h.done, |h.done|))
            && (h.completeWhat != Nothing <==> h.live) && (h.depth == 0 <==> h.live) && h.depth <= 1)
  {
    RunKeeps(Initial, steps);
  }
}
