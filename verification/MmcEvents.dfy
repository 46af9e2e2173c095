/** Which interrupts end what the MMC host waits for. */
module MmcEvents {
  import opened MmcRequests
  import opened MmcRuns

  /** What a run of the handler may report in any of its interrupts. */
  predicate TimedOut(sts: seq<Status>) { exists i :: 0 <= i < |sts| && sts[i].timeout }

  predicate Sent(sts: seq<Status>) { exists i :: 0 <= i < |sts| && sts[i].sent }

  predicate Responded(sts: seq<Status>) { exists i :: 0 <= i < |sts| && sts[i].response }

  predicate DataFailed(sts: seq<Status>) { exists i :: 0 <= i < |sts| && sts[i].dataFail }

  predicate DataEnded(sts: seq<Status>) { exists i :: 0 <= i < |sts| && sts[i].finished }

  lemma Unfold(sts: seq<Status>)
    requires sts != []
    ensures TimedOut(sts) <==> sts[0].timeout || TimedOut(sts[1..])
    ensures Sent(sts) <==> sts[0].sent || Sent(sts[1..])
    ensures Responded(sts) <==> sts[0].response || Responded(sts[1..])
    ensures DataFailed(sts) <==> sts[0].dataFail || DataFailed(sts[1..])
    ensures DataEnded(sts) <==> sts[0].finished || DataEnded(sts[1..])
  {
    assert sts == [sts[0]] + sts[1..];
    forall i | 0 < i < |sts| ensures sts[i] == sts[1..][i - 1] { }
  }

  /** The waiting of a command with data: for its response, its data, or both in either order. */
  predicate AwaitsData(w: Waitfor) { w == XferFinishRspFin || w == XferFinish || w == RspFin }

  /** Do these interrupts end a wait w for a command with data? */
  predicate EndsData(w: Waitfor, sts: seq<Status>) {
    || TimedOut(sts) || DataFailed(sts)
    || ((w == XferFinish || Responded(sts)) && (w == RspFin || DataEnded(sts)))
  }

  /** Or for one without? */
  predicate EndsPlain(w: Waitfor, sts: seq<Status>) {
    TimedOut(sts) || (w == RspFin && Responded(sts)) || (w == CmdSent && Sent(sts))
  }

  /** One interrupt with data in hand. */
  lemma DataIrq(h: Host, st: Status)
    requires IrqActive(h) && CurrentData(h).Some? && AwaitsData(h.completeWhat)
    ensures var h' := Irq(h, st); var w := h.completeWhat;
      if st.timeout || st.dataFail then h'.completeWhat == Finalize
      else if w == RspFin && st.response then h'.completeWhat == Finalize
      else if w == XferFinish && st.finished then h'.completeWhat == Finalize
      else if w == XferFinishRspFin && st.response && st.finished then h'.completeWhat == Finalize
      else if w == XferFinishRspFin && st.response then h'.completeWhat == XferFinish
      else if w == XferFinishRspFin && st.finished then h'.completeWhat == RspFin
      else h'.completeWhat == w
  {
  }

  lemma PlainIrq(h: Host, st: Status)
    requires IrqActive(h) && CurrentData(h).None?
    ensures var h' := Irq(h, st); var w := h.completeWhat;
      && (h'.completeWhat == Finalize <==> st.timeout || (w == RspFin && st.response) || (w == CmdSent && st.sent))
      && (h'.completeWhat != Finalize ==>
            h'.completeWhat == if w == XferFinishRspFin && st.response then XferFinish else w)
  {
    hide Kick, Settle;
    var h1 := Kick(h, st);
    KickFrame(h, st);
    assert CurrentData(h1).None?;
    SettleNothing(h1, st);
    SettleNothing(h1.(completeWhat := XferFinish), st);
  }

  lemma SettleNothing(h: Host, st: Status)
    requires CurrentData(h).None?
    ensures Settle(h, st) == h
  {
  }

  lemma SameHand(h: Host, h': Host)
    requires Framed(h, h')
    ensures CurrentData(h') == CurrentData(h)
    ensures IrqActive(h) && h'.completeWhat != Finalize ==> IrqActive(h')
  {
  }

  /** The interrupts finalize a command with data in hand exactly if one reports a timeout or a data
      error, or the response and the end of the data have both been reported, in either order. */
  lemma {:induction false} DataEndsIff(h: Host, sts: seq<Status>)
    requires IrqActive(h) && CurrentData(h).Some? && AwaitsData(h.completeWhat)
    ensures Irqs(h, sts).completeWhat == Finalize <==> EndsData(h.completeWhat, sts)
    decreases |sts|
  {
    hide Irq, IrqActive, CurrentData, TimedOut, Sent, Responded, DataFailed, DataEnded;
    if sts == [] {
      NoInterrupts(sts);
      ActiveAwaits(h);
    } else {
      Unfold(sts);
      DataIrq(h, sts[0]);
      var h1 := Irq(h, sts[0]);
      IrqFrame(h, sts[0]);
      SameHand(h, h1);
      if h1.completeWhat == Finalize {
        FinalizedIrqs(h1, sts[1..]);
      } else {
        DataEndsIff(h1, sts[1..]);
      }
    }
  }

  /** A command without data, or a stop command: exactly by a timeout, by its response if it expects
      one, or by having been sent if it does not. */
  lemma {:induction false} PlainEndsIff(h: Host, sts: seq<Status>)
    requires IrqActive(h) && CurrentData(h).None?
    ensures Irqs(h, sts).completeWhat == Finalize <==> EndsPlain(h.completeWhat, sts)
    decreases |sts|
  {
    hide Irq, IrqActive, CurrentData, TimedOut, Sent, Responded;
    if sts == [] {
      NoInterrupts(sts);
      ActiveAwaits(h);
    } else {
      Unfold(sts);
      PlainIrq(h, sts[0]);
      var h1 := Irq(h, sts[0]);
      IrqFrame(h, sts[0]);
      SameHand(h, h1);
      if h1.completeWhat == Finalize {
        FinalizedIrqs(h1, sts[1..]);
      } else {
        PlainEndsIff(h1, sts[1..]);
      }
    }
  }

  lemma NoInterrupts(sts: seq<Status>)
    requires sts == []
    ensures !TimedOut(sts) && !Sent(sts) && !Responded(sts) && !DataFailed(sts) && !DataEnded(sts)
  {
  }

  lemma ActiveAwaits(h: Host)
    requires IrqActive(h)
    ensures h.completeWhat != Finalize && h.completeWhat != Nothing
  {
  }

  /** The tasklet is scheduled exactly when the fifo asks for it in the direction of the transfer, or
      when the command is finalized. */
  lemma ScheduledIff(h: Host, st: Status)
    requires IrqActive(h)
    ensures Irq(h, st).scheduled <==>
      || h.scheduled || (h.pio.Write? && st.txReady) || (h.pio.Read? && st.rxReady)
      || Irq(h, st).completeWhat == Finalize
  {
    hide Settle;
    var h1 := Kick(h, st);
    SettleSchedules(h1, st);
    SettleSchedules(h1.(completeWhat := XferFinish), st);
  }

  lemma SettleSchedules(h: Host, st: Status)
    requires h.completeWhat != Finalize
    ensures Settle(h, st).scheduled <==> h.scheduled || Settle(h, st).completeWhat == Finalize
  {
  }

  // ---- Errors ----

  /** An interrupt in state h ends the transfer with an error, rather than by what is awaited. */
  predicate Errs(h: Host, st: Status) {
    && h.completeWhat != Finalize
    && (st.timeout || (st.dataFail && !(h.completeWhat == RspFin && st.response)))
  }

  lemma SettleErr(h: Host, st: Status)
    requires CurrentData(h).Some? && h.completeWhat != Finalize
    ensures var h' := Settle(h, st);
      && h'.failed == (h.failed || st.dataFail) && h'.pio == (if st.dataFail then NoXfer else h.pio)
      && (st.dataFail ==> h'.completeWhat == Finalize)
  {
  }

  lemma ErrIrq(h: Host, st: Status)
    requires IrqActive(h) && CurrentData(h).Some? && AwaitsData(h.completeWhat)
    ensures var h' := Irq(h, st);
      && h'.failed == (h.failed || Errs(h, st)) && h'.pio == (if Errs(h, st) then NoXfer else h.pio)
      && (Errs(h, st) ==> h'.completeWhat == Finalize)
  {
    hide Settle, Kick;
    var h1 := Kick(h, st);
    KickFrame(h, st);
    var h2 := h1.(completeWhat := XferFinish);
    assert CurrentData(h1).Some? && CurrentData(h2).Some?;
    SettleErr(h1, st);
    SettleErr(h2, st);
  }

  /** An error is noted, and the transfer given up, exactly if some interrupt reports one before the
      command is finalized. */
  lemma {:induction false} FailedIff(h: Host, sts: seq<Status>)
    requires IrqActive(h) && CurrentData(h).Some? && AwaitsData(h.completeWhat) && !h.failed
    ensures var h' := Irqs(h, sts); var some := exists i :: 0 <= i < |sts| && Errs(Irqs(h, sts[..i]), sts[i]);
      && h'.failed == some && h'.pio == if some then NoXfer else h.pio
    decreases |sts|
  {
    hide Irq, IrqActive, CurrentData, Errs;
    if sts != [] {
      DataIrq(h, sts[0]);
      ErrIrq(h, sts[0]);
      var h1 := Irq(h, sts[0]);
      IrqFrame(h, sts[0]);
      SameHand(h, h1);
      forall i | 0 < i < |sts| ensures Irqs(h, sts[..i]) == Irqs(h1, sts[1..][..i - 1]) {
        assert sts[..i][0] == sts[0] && sts[..i][1..] == sts[1..][..i - 1];
      }
      assert Irqs(h, sts[..0]) == h;
      if h1.completeWhat == Finalize {
        FinalizedIrqs(h1, sts[1..]);
        forall i | 0 < i < |sts| ensures !Errs(Irqs(h, sts[..i]), sts[i]) {
          FinalizedIrqs(h1, sts[1..][..i - 1]);
          NoErr(h1, sts[i]);
        }
      } else {
        FailedIff(h1, sts[1..]);
        assert forall i :: 0 < i < |sts| ==> sts[i] == sts[1..][i - 1];
        if i :| 0 <= i < |sts| && Errs(Irqs(h, sts[..i]), sts[i]) {
          if i > 0 { assert Errs(Irqs(h1, sts[1..][..i - 1]), sts[1..][i - 1]); }
        }
        if i :| 0 <= i < |sts[1..]| && Errs(Irqs(h1, sts[1..][..i]), sts[1..][i]) {
          assert Errs(Irqs(h, sts[..i + 1]), sts[i + 1]);
        }
      }
    }
  }

  lemma NoErr(h: Host, st: Status)
    requires h.completeWhat == Finalize
    ensures !Errs(h, st)
  {
  }

  // ---- Requests rejected on the spot ----

  /** A request is completed without a command being sent exactly if it is answered without the hardware,
      or has data and the last transfer is still busy or its direction flags are not exactly one. */
  lemma RejectedIff(h: Host, r: Request, l: Launch)
    requires Inv(h) && !h.live && GoodRequest(r) && r.id == |h.done| && Unstruck(l)
    ensures var h' := Submit(h.(done := h.done + [0]), r, l);
      && (!h'.live <==> r.suppressed || (r.data.Some? && (l.busy || (r.data.value.read <==> r.data.value.write))))
      && (!h'.live ==> h'.done == h.done + [1] && h'.depth == h.depth && h'.completeWhat == Nothing)
      && (h'.live ==> h'.done == h.done + [0])
  {
    if Accepted(r, l) {
      SubmitAwaits(h, r, l);
      UnstruckDone(h, r, l);
    }
  }

  /** Preparing and sending complete nothing. */
  lemma UnstruckDone(h: Host, r: Request, l: Launch)
    requires Inv(h) && !h.live && GoodRequest(r) && r.id == |h.done| && Unstruck(l) && Accepted(r, l)
    ensures Submit(h.(done := h.done + [0]), r, l).done == h.done + [0]
  {
    SubmitAwaits(h, r, l);
    SubmitKeeps(h, r, l);
    hide Submit;
    var h' := Submit(h.(done := h.done + [0]), r, l);
    LiveDone(h');
    OnceUntil(h.done, h'.done, r.id);
  }

  lemma LiveDone(h: Host)
    requires Inv(h) && h.live
    ensures h.mrq.Some? && AllOnce(h.done, h.mrq.value.id) && |h.done| == h.mrq.value.id + 1
    ensures h.done[h.mrq.value.id] == 0
  {
  }

  lemma OnceUntil(d: seq<nat>, d': seq<nat>, n: nat)
    requires |d| == n && |d'| == n + 1 && AllOnce(d, n) && AllOnce(d', n) && d'[n] == 0
    ensures d' == d + [0]
  {
  }

  // ---- From the request to its end ----

  /** No left-over run of the tasklet strikes. */
  predicate Unstruck(l: Launch) {
    l.gaps(0) == None && l.gaps(1) == None && l.gaps(2) == None && l.gaps(3) == None && l.gaps(4) == None
  }

  /** What a command is to wait for: the data and the response, the response, or being sent. */
  function Awaited(rsp: bool, data: bool): Waitfor {
    if data then XferFinishRspFin else if rsp then RspFin else CmdSent
  }

  /** An accepted request that is not struck is in hand with the interrupt enabled. */
  lemma SubmitAwaits(h: Host, r: Request, l: Launch)
    requires Inv(h) && !h.live && GoodRequest(r) && r.id == |h.done| && Accepted(r, l) && Unstruck(l)
    ensures var h' := Submit(h.(done := h.done + [0]), r, l);
      && Inv(h') && h'.live && h'.mrq == Some(r) && IrqActive(h') && CurrentData(h') == r.data
      && h'.completeWhat == Awaited(r.rsp, r.data.Some?)
  {
    StartLaunch(h, r);
    var h0 := HandIn(h.(done := h.done + [0]), r);
    LaunchClear(h0, r, l);
    var h2 := ClearStatus(h0, l.flush);
    assert Prepared(h2, r, l).mrq == Some(r) && !Prepared(h2, r, l).oops && !Prepared(h2, r, l).cmdIsStop by {
      if r.data.Some? { LaunchPrepare(h2, r, l); }
    }
    SubmitKeeps(h, r, l);
    hide Inv, Fill, Launching, HandIn, PreparePio;
    var h3 := Prepared(h2, r, l);
    assert Submit(h.(done := h.done + [0]), r, l) == EnableIrq(SendCommand(h3, r.rsp, r.data.Some?));
    LiveDepth(Submit(h.(done := h.done + [0]), r, l));
  }

  lemma LiveDepth(h: Host)
    requires Inv(h) && h.live
    ensures h.depth == 0
  {
  }

  /** So interrupts finalize it exactly if they report a timeout, or for a request with data a data
      error or both the response and the end of the data, or else its response or its being sent. */
  lemma RequestEndsIff(h: Host, r: Request, l: Launch, sts: seq<Status>)
    requires Inv(h) && !h.live && GoodRequest(r) && r.id == |h.done| && Accepted(r, l) && Unstruck(l)
    ensures var h' := Irqs(Submit(h.(done := h.done + [0]), r, l), sts);
      h'.completeWhat == Finalize <==>
        || TimedOut(sts)
        || (if r.data.Some? then DataFailed(sts) || (Responded(sts) && DataEnded(sts))
            else if r.rsp then Responded(sts) else Sent(sts))
  {
    SubmitAwaits(h, r, l);
    hide Submit, Inv, Irqs, IrqActive, CurrentData, TimedOut, Sent, Responded, DataFailed, DataEnded;
    var h1 := Submit(h.(done := h.done + [0]), r, l);
    if r.data.Some? { DataEndsIff(h1, sts); } else { PlainEndsIff(h1, sts); }
  }

  /** A stop command sent by a run of the tasklet while its request is outstanding. */
  lemma StopEndsIff(h: Host, flush: bool, sts: seq<Status>)
    requires h.live && Busy(h) && !h.oops && Stale(h) && h.depth == 0 && !h.cmdIsStop && Finish(h, flush).cmdIsStop
    requires h.mrq.value.data.Some?
    ensures h.mrq.value.stop.Some?
    ensures var h' := Irqs(Finish(h, flush), sts);
      h'.completeWhat == Finalize <==>
        TimedOut(sts) || if h.mrq.value.stop.value then Responded(sts) else Sent(sts)
  {
    hide Irqs, TimedOut, Sent, Responded;
    var h1 := Finish(h, flush);
    FinishLive(h, flush);
    PlainEndsIff(h1, sts);
  }
}
