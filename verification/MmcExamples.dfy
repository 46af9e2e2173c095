/** Runs of the MMC request machine from its initial state that go wrong. */
module MmcExamples {
  import opened MmcRequests
  import opened MmcRuns
  import opened MmcQuiet
  import opened MmcOops

  const ReadOne := Request(0, true, false, Some(Data([1], true, false)), None)
  const ReadTwo := Request(0, true, false, Some(Data([2], true, false)), None)
  const WriteTwo := Request(0, true, false, Some(Data([2], false, true)), None)
  const NoData := Request(0, true, false, None, None)

  const Response := Interrupt(NoEvent.(response := true))
  const Finished := Interrupt(NoEvent.(finished := true))
  const Ready := Interrupt(NoEvent.(rxReady := true))

  lemma RunThree(h: Host, s: seq<Step>)
    requires |s| == 3
    ensures Run(h, s) == Apply(Apply(Apply(h, s[0]), s[1]), s[2])
  {
    hide Apply;
    var h1, h2 := Apply(h, s[0]), Apply(Apply(h, s[0]), s[1]);
    assert Run(h2, s[2..]) == Run(Apply(h2, s[2]), s[2..][1..]) && s[2..][1..] == [];
    assert Run(h1, s[1..]) == Run(h2, s[1..][1..]) && s[1..][1..] == s[2..];
  }

  lemma RunFour(h: Host, s: seq<Step>)
    requires |s| == 4
    ensures Run(h, s) == Apply(Apply(Apply(Apply(h, s[0]), s[1]), s[2]), s[3])
  {
    hide Apply;
    RunThree(Apply(h, s[0]), s[1..]);
  }

  /** A read of two words that was handed in, of which one word is in its buffer. */
  lemma OneWordRead(h: Host, env: Env)
    requires h.mrq == Some(ReadTwo) && h.pio == Read && h.words == 0 && h.sgptr == 0 && h.fifo == 0
    requires env.arrive(0) == 1 && env.arrive(1) == 0 && env.within(0) == []
    ensures PioRead(h, env) == h.(words := 1, sgptr := 1)
  {
    var h1 := h.(words := 1, sgptr := 1);
    assert Gulp(h.(fifo := 1), 1) == h1;
    assert ReadLoop(h1, env, 1) == (h1, false);
  }

  /** Handing in an acceptable read from a state in which nothing strikes. */
  lemma PlainRead(h: Host, r: Request, l: Launch)
    requires r.data.Some? && !r.data.value.write && Accepted(r, l) && !h.oops && !l.flush && h.depth == 1
    requires l.gaps(0) == l.gaps(1) == l.gaps(2) == l.gaps(3) == l.gaps(4) == None
    ensures Submit(h, r, l) == HandIn(h, r).(
      completeWhat := XferFinishRspFin, live := true, depth := 0, pio := Read, words := 0, sgptr := 0)
  {
  }

  lemma PlainWrite(h: Host, r: Request, l: Launch)
    requires r.data.Some? && r.data.value.write && Accepted(r, l) && !h.oops && !l.flush && h.depth == 1
    requires l.gaps(0) == l.gaps(1) == l.gaps(2) == l.gaps(3) == l.gaps(4) == None
    ensures var h1 := Fill(HandIn(h, r).(pio := Write, words := 0, sgptr := 0), l, 0);
      !h1.oops && h1.depth == 1 ==> Submit(h, r, l) == h1.(completeWhat := XferFinishRspFin, live := true, depth := 0)
  {
    hide Fill;
  }

  /** The tasklet finds everything done and the transfer of the first request still active. */
  lemma Unfinished(h: Host, env: Env, t: Host)
    requires h.scheduled && !h.oops && t == Transfer(h.(scheduled := false), env)
    requires t.completeWhat == Finalize && t.pio != NoXfer && !t.cmdIsStop && t.done == [0]
    requires t.mrq.Some? && t.mrq.value.data.Some? && t.mrq.value.stop.None? && t.mrq.value.id == 0
    ensures Tasklet(h, env) ==
      t.(depth := t.depth + 1, failed := true, completeWhat := Nothing, mrq := None, live := false,
         done := [1], fifo := 0)
  {
    hide Transfer;
  }

  /** Nothing strikes, so the run fits. */
  lemma PlainFits(h: Host, s: seq<Step>)
    requires |s| == 4 && s[0].NewRequest? && !h.live && GoodRequest(s[0].r)
    requires forall k :: s[0].l.gaps(k) == None
    requires !s[1].RunTasklet? && !s[1].NewRequest? && !s[2].RunTasklet? && !s[2].NewRequest? && s[3].RunTasklet?
    requires Apply(Apply(Apply(h, s[0]), s[1]), s[2]).completeWhat != Nothing
    ensures AllFit(h, s)
  {
    hide Apply, Drains;
    assert Fits(h, s[0]) by { hide PreparePio; }
    FourFit(h, s);
  }

  // ---- Transfers left active ----

  /** Two words are expected, one arrives, and the controller reports the end of the transfer. */
  const ShortRead := [NewRequest(ReadTwo, Plain), Response, Finished, RunTasklet(Words(1, 0))]

  /** The request is completed, but its read stays active. */
  lemma ShortReadLeftActive()
    ensures Run(Initial, ShortRead) == Initial.(done := [1], pio := Read, words := 1, sgptr := 1, failed := true)
    ensures AllFit(Initial, ShortRead)
  {
    var env := Words(1, 0);
    PlainRead(Initial.(done := [0]), ReadTwo, Plain);
    var h1 := Apply(Initial, ShortRead[0]);
    assert h1 == Host(XferFinishRspFin, Some(ReadTwo), false, Read, 0, 0, 0, false, 0, false, true, [0], false);
    var h2 := Apply(h1, Response);
    assert h2 == h1.(completeWhat := XferFinish);
    var h3 := Apply(h2, Finished);
    assert h3 == h2.(completeWhat := Finalize, scheduled := true);
    var h4 := h3.(scheduled := false);
    OneWordRead(h4, env);
    assert Transfer(h4, env) == h4.(words := 1, sgptr := 1);
    Unfinished(h3, env, h4.(words := 1, sgptr := 1));
    hide Tasklet;
    assert Apply(h3, ShortRead[3]) == Initial.(done := [1], pio := Read, words := 1, sgptr := 1, failed := true);
    RunFour(Initial, ShortRead);
    PlainFits(Initial, ShortRead);
  }

  lemma FourFit(h: Host, s: seq<Step>)
    requires |s| == 4 && Fits(h, s[0]) && Fits(Apply(h, s[0]), s[1]) && Fits(Apply(Apply(h, s[0]), s[1]), s[2])
    requires Fits(Apply(Apply(Apply(h, s[0]), s[1]), s[2]), s[3])
    ensures AllFit(h, s)
  {
    hide Apply, Fits;
    var h1, h2 := Apply(h, s[0]), Apply(Apply(h, s[0]), s[1]);
    var h3 := Apply(h2, s[2]);
    assert s[1..][1..] == s[2..] && s[2..][1..] == s[3..] && s[3..][1..] == [];
    assert AllFit(h3, s[3..]);
    assert AllFit(h2, s[2..]);
    assert AllFit(h1, s[1..]);
  }

  /** Two words are to be sent, the fifo takes one, and the controller reports the end. */
  const OneRoom := Plain.(room := k => if k == 0 then 1 else 0)

  const ShortWrite := [NewRequest(WriteTwo, OneRoom), Response, Finished, RunTasklet(Words(0, 0))]

  /** The request is completed, but its write stays active. */
  lemma ShortWriteLeftActive()
    ensures Run(Initial, ShortWrite) == Initial.(done := [1], pio := Write, words := 1, sgptr := 1, failed := true)
    ensures AllFit(Initial, ShortWrite)
  {
    var none := Words(0, 0);
    var h0 := Initial.(done := [0], mrq := Some(WriteTwo), pio := Write);
    var pushed := h0.(words := 1, sgptr := 1, fifo := 1);
    assert Push(h0, 1, 0) == pushed;
    assert Fill(pushed, OneRoom, 1) == pushed;
    assert Fill(h0, OneRoom, 0) == pushed;
    PlainWrite(Initial.(done := [0]), WriteTwo, OneRoom);
    assert HandIn(Initial.(done := [0]), WriteTwo).(pio := Write, words := 0, sgptr := 0) == h0;
    assert Initial.(done := Initial.done + [0]) == Initial.(done := [0]) && WriteTwo.(id := 0) == WriteTwo;
    var h1 := Apply(Initial, ShortWrite[0]);
    assert h1 == pushed.(completeWhat := XferFinishRspFin, live := true, depth := 0);
    var h2 := Apply(h1, Response);
    assert h2 == h1.(completeWhat := XferFinish);
    var h3 := Apply(h2, Finished);
    assert h3 == h2.(completeWhat := Finalize, scheduled := true);
    var h4 := h3.(scheduled := false);
    assert Transfer(h4, none) == h4;
    Unfinished(h3, none, h4);
    hide Tasklet;
    assert Apply(h3, ShortWrite[3]) == Initial.(done := [1], pio := Write, words := 1, sgptr := 1, failed := true);
    RunFour(Initial, ShortWrite);
    PlainFits(Initial, ShortWrite);
  }

  /** After either, the next request without data may end in a null pointer. */
  lemma ShortTransferThenOops()
    ensures EndsInOops(Run(Initial, ShortRead), NoData, Plain, [Answered, RunTasklet(Words(0, 0))])
    ensures EndsInOops(Run(Initial, ShortWrite), NoData, Plain, [Answered, RunTasklet(Words(0, 0))])
  {
    ShortReadLeftActive();
    ShortWriteLeftActive();
    ActiveEndsInOops(Run(Initial, ShortRead), NoData);
    ActiveEndsInOops(Run(Initial, ShortWrite), NoData);
  }

  // ---- Left-over runs of the tasklet ----

  /** One word arrives where another is expected later, and the end of the transfer is reported
      just before the tasklet looks at what is awaited, so that it is scheduled once more. */
  const LateEnd := Words(1, 0).(between := k => if k == 1 then [NoEvent.(finished := true)] else [])

  const ReadInterrupted := [NewRequest(ReadTwo, Plain), Response, Ready, RunTasklet(LateEnd)]

  lemma InterruptedRead(h: Host)
    requires h.mrq == Some(ReadTwo) && h.pio == Read && h.words == 0 && h.sgptr == 0 && h.fifo == 0
    requires h.completeWhat == XferFinish && h.depth == 0 && !h.cmdIsStop
    ensures Transfer(h, LateEnd) == h.(words := 1, sgptr := 1, completeWhat := Finalize, scheduled := true)
  {
    OneWordRead(h, LateEnd);
    var h1 := h.(words := 1, sgptr := 1);
    var st := NoEvent.(finished := true);
    assert Irqs(h1, [st]) == Irqs(Irq(h1, st), []) == h1.(completeWhat := Finalize, scheduled := true);
    hide PioRead;
    assert Irqs(h, []) == h;
  }

  lemma ReadInterruptedEnds()
    ensures Run(Initial, ReadInterrupted) ==
      Initial.(done := [1], pio := Read, words := 1, sgptr := 1, failed := true, scheduled := true)
  {
    PlainRead(Initial.(done := [0]), ReadTwo, Plain);
    var h1 := Apply(Initial, ReadInterrupted[0]);
    assert h1 == Host(XferFinishRspFin, Some(ReadTwo), false, Read, 0, 0, 0, false, 0, false, true, [0], false);
    var h2 := Apply(h1, Response);
    assert h2 == h1.(completeWhat := XferFinish);
    assert Apply(h2, Ready) == h2.(scheduled := true);
    InterruptedRead(h2);
    hide Transfer;
    RunFour(Initial, ReadInterrupted);
  }

  /** One word arrives for a read that still wants one. */
  lemma LastWord(h: Host)
    requires h.pio == Read && h.words == 1 && h.fifo == 0 && |Buffers(h)| <= h.sgptr
    ensures Drains(h, Words(1, 0))
  {
    assert Gulp(h, 1) == h.(words := 0);
    assert Handed(h.(words := 0), Words(1, 0), 1) == 0;
  }

  /** A request that is rejected on the spot. */
  lemma BusyRead(h: Host)
    requires !h.oops && h.done == [1]
    ensures Apply(h, NewRequest(ReadTwo, Plain.(busy := true))) ==
      h.(done := [1, 1], mrq := Some(ReadTwo.(id := 1)), failed := false, cmdIsStop := false)
  {
    assert h.done + [0] == [1, 0];
  }

  /** If words may arrive with no command outstanding, a request can be completed twice: the next
      request is rejected on the spot, one more word arrives, and the left-over run finishes it. */
  lemma CompletedTwice()
    ensures var h := Run(Initial, ReadInterrupted);
      var h1 := Apply(h, NewRequest(ReadTwo, Plain.(busy := true)));
      && h1.done == [1, 1] && Apply(h1, RunTasklet(Words(1, 0))).done == [1, 2]
      && Drains(h1, Words(1, 0))
  {
    hide Run, Submit, Drains, Tasklet;
    ReadInterruptedEnds();
    var h := Run(Initial, ReadInterrupted);
    BusyRead(h);
    var h1 := h.(done := [1, 1], mrq := Some(ReadTwo.(id := 1)), failed := false, cmdIsStop := false);
    LastWord(h1);
    DrainedOutcome(h1, Words(1, 0));
  }

  /** And with no request in hand, the left-over run ends in a null pointer. */
  lemma LeftOverOops()
    ensures var h := Run(Initial, ReadInterrupted);
      Inv(h) && !h.live && h.mrq.None? && Apply(h, RunTasklet(Words(1, 0))).oops
  {
    hide Run, Drains, Tasklet;
    ReadInterruptedEnds();
    var h := Run(Initial, ReadInterrupted);
    LastWord(h);
    DrainedOutcome(h, Words(1, 0));
  }

  /** Two words arrive for a buffer of one, and the fifo asks for the tasklet while it reads. */
  const Surplus := Words(2, 0).(within := k => if k == 1 then [NoEvent.(rxReady := true)] else [])

  const ReadSurplus := [NewRequest(ReadOne, Plain), Ready, RunTasklet(Surplus)]

  lemma SurplusRead(h: Host)
    requires h.mrq == Some(ReadOne) && h.pio == Read && h.words == 0 && h.sgptr == 0 && h.fifo == 0
    requires h.completeWhat == XferFinishRspFin && h.depth == 0 && !h.cmdIsStop
    ensures PioRead(h, Surplus) == Dry(h.(sgptr := 1, fifo := 1, scheduled := true))
  {
    var h1 := h.(sgptr := 1, fifo := 1);
    assert Gulp(h.(fifo := 2), 2) == h1;
    var st := NoEvent.(rxReady := true);
    assert Irqs(h1, [st]) == Irqs(Irq(h1, st), []) == h1.(scheduled := true);
    assert ReadLoop(h1, Surplus, 1) == (Dry(h1.(scheduled := true)), true);
    assert ReadLoop(h, Surplus, 0) == ReadLoop(h1, Surplus, 1);
  }

  lemma ReadSurplusEnds()
    ensures Run(Initial, ReadSurplus) == Initial.(done := [1], sgptr := 1, fifo := 1, scheduled := true)
  {
    PlainRead(Initial.(done := [0]), ReadOne, Plain);
    var h1 := Apply(Initial, ReadSurplus[0]);
    assert h1 == Host(XferFinishRspFin, Some(ReadOne), false, Read, 0, 0, 0, false, 0, false, true, [0], false);
    assert Apply(h1, Ready) == h1.(scheduled := true);
    SurplusRead(h1);
    var h2 := Dry(h1.(sgptr := 1, fifo := 1, scheduled := true));
    assert Transfer(h1, Surplus) == h2;
    hide PioRead;
    RunThree(Initial, ReadSurplus);
  }

  const EarlyStrike := Plain.(gaps := k => if k == 3 then Some(Words(0, 0)) else None)

  /** With nothing arriving any more, the left-over run strikes the next read early. Its command is
      outstanding with the interrupt disabled, or, if it has a stop command, it is never completed
      without a command timeout. */
  lemma StruckEarlyFromStart()
    ensures Stuck(Apply(Run(Initial, ReadSurplus), NewRequest(ReadOne, EarlyStrike)))
  {
    ReadSurplusEnds();
    StruckAfterSurplus(Run(Initial, ReadSurplus), ReadOne);
  }

  lemma LostFromStart(steps: seq<Step>)
    requires forall i :: 0 <= i < |steps| ==> !steps[i].NewRequest? && !TimesOut(steps[i])
    ensures var h := Apply(Run(Initial, ReadSurplus), NewRequest(ReadOne.(stop := Some(true)), EarlyStrike));
      Lost(h) && h.done == [1, 0] && Run(h, steps).done == [1, 0]
  {
    ReadSurplusEnds();
    var h := Run(Initial, ReadSurplus);
    StruckAfterSurplus(h, ReadOne.(stop := Some(true)));
    LostUntilTimeout(Apply(h, NewRequest(ReadOne.(stop := Some(true)), EarlyStrike)), steps);
  }

  lemma StruckAfterSurplus(h: Host, r: Request)
    requires h == Initial.(done := [1], sgptr := 1, fifo := 1, scheduled := true)
    requires r == ReadOne.(stop := r.stop)
    ensures var h' := Apply(h, NewRequest(r, EarlyStrike));
      if r.stop.None? then Stuck(h') else Lost(h') && h'.done == [1, 0]
  {
    hide Submit, Stuck;
    var r1 := r.(id := 1);
    StartLaunch(h, r1);
    assert h.done + [0] == [1, 0];
    assert SumFrom([1], 0) == 1 by { assert SumFrom([1], 1) == 0; }
    StruckEarlyEnds(h.(done := [1, 0]), r1, EarlyStrike);
    var h' := Apply(h, NewRequest(r, EarlyStrike));
    if r.stop.Some? { assert h'.done == [1, 0]; }
  }
}
