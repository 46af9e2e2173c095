/** One request of an MMC host in PIO mode, driven by an interrupt handler and a tasklet. */
module MmcRequests {

  datatype Option<T> = None | Some(value: T)

  /** What the handler still waits for. */
  datatype Waitfor = Nothing | Finalize | CmdSent | RspFin | XferFinish | XferFinishRspFin

  datatype Xfer = NoXfer | Read | Write

  /** A data transfer: the lengths of its buffers in words, and its direction flags. */
  datatype Data = Data(sg: seq<nat>, read: bool, write: bool)

  /** A request: does its command expect a response, is it answered without the hardware, its
      data and, for a request with data, a stop command (does that expect a response?). A stop
      command carries no data. */
  datatype Request = Request(id: nat, rsp: bool, suppressed: bool, data: Option<Data>, stop: Option<bool>)

  /** `fifo`: words in the fifo; `failed`: an error was noted for the command or its data;
      `depth`: how often the host interrupt is disabled; `live`: a command is outstanding;
      `done`: how often each request handed in was completed; `oops`: a null pointer was followed. */
  datatype Host = Host(
    completeWhat: Waitfor, mrq: Option<Request>, cmdIsStop: bool,
    pio: Xfer, words: nat, sgptr: nat, fifo: nat, failed: bool,
    depth: nat, scheduled: bool, live: bool, done: seq<nat>, oops: bool)

  const Initial := Host(Nothing, None, false, NoXfer, 0, 0, 0, false, 1, false, false, [], false)

  // ---- The interrupt handler ----

  /** The status bits the handler reads. */
  datatype Status = Status(txReady: bool, rxReady: bool, timeout: bool, sent: bool, response: bool,
                           dataFail: bool, finished: bool)

  function Close(h: Host): Host { h.(completeWhat := Finalize, scheduled := true) }

  /** An error; that of a stop command is not held against the data of its request. */
  function Fail(h: Host): Host { Close(h.(pio := NoXfer, failed := h.failed || !h.cmdIsStop)) }

  function CurrentData(h: Host): Option<Data> {
    if h.mrq.None? || h.cmdIsStop then None else h.mrq.value.data
  }

  function IrqActive(h: Host): bool {
    && h.depth == 0 && h.completeWhat != Nothing && h.completeWhat != Finalize && h.mrq.Some?
    && (h.cmdIsStop ==> h.mrq.value.stop.Some?)
  }

  /** The fifo asks for the tasklet. */
  function Kick(h: Host, st: Status): Host {
    if (h.pio.Write? && st.txReady) || (h.pio.Read? && st.rxReady) then h.(scheduled := true) else h
  }

  /** The end of the data phase. */
  function Settle(h: Host, st: Status): Host {
    if CurrentData(h).None? then h
    else if st.dataFail then Fail(h)
    else if st.finished && h.completeWhat == XferFinish then Close(h)
    else if st.finished && h.completeWhat == XferFinishRspFin then h.(completeWhat := RspFin)
    else h
  }

  /** s3cmci_irq */
  function Irq(h: Host, st: Status): Host {
    if !IrqActive(h) then h
    else
      var h1 := Kick(h, st);
      if st.timeout then Fail(h1)
      else if st.sent && h1.completeWhat == CmdSent then Close(h1)
      else if st.response && h1.completeWhat == RspFin then Close(h1)
      else if st.response && h1.completeWhat == XferFinishRspFin then
        Settle(h1.(completeWhat := XferFinish), st)
      else Settle(h1, st)
  }

  function Irqs(h: Host, sts: seq<Status>): Host
    decreases |sts|
  {
    if sts == [] then h else Irqs(Irq(h, sts[0]), sts[1..])
  }

  /** What interrupts leave alone. */
  predicate Framed(h: Host, h': Host) {
    && h'.mrq == h.mrq && h'.cmdIsStop == h.cmdIsStop && h'.words == h.words && h'.sgptr == h.sgptr
    && h'.fifo == h.fifo && h'.depth == h.depth && h'.live == h.live && h'.done == h.done && h'.oops == h.oops
    && (h'.completeWhat == Nothing <==> h.completeWhat == Nothing)
    && (h.completeWhat == Finalize ==> h'.completeWhat == Finalize)
    && (h.completeWhat == RspFin || h.completeWhat == CmdSent ==>
          h'.completeWhat == h.completeWhat || h'.completeWhat == Finalize)
    && (h'.pio == h.pio || h'.pio == NoXfer) && (h.depth > 0 || h.completeWhat == Nothing ==> h' == h)
  }

  lemma SettleFrame(h: Host, st: Status)
    requires h.completeWhat != Nothing && h.completeWhat != Finalize && h.depth == 0
    ensures Framed(h, Settle(h, st))
  {
  }

  lemma EndFrame(h: Host)
    requires h.completeWhat != Nothing && h.completeWhat != Finalize && h.depth == 0
    ensures Framed(h, Close(h)) && Framed(h, Fail(h))
  {
  }

  lemma KickFrame(h: Host, st: Status)
    ensures Kick(h, st) == h.(scheduled := Kick(h, st).scheduled)
  {
  }

  lemma IrqFrame(h: Host, st: Status)
    ensures Framed(h, Irq(h, st))
  {
    hide Settle, Close, Fail, Kick;
    if IrqActive(h) {
      var h1 := Kick(h, st);
      KickFrame(h, st);
      EndFrame(h1);
      SettleFrame(h1, st);
      SettleFrame(h1.(completeWhat := XferFinish), st);
    }
  }

  lemma {:induction false} IrqsFrame(h: Host, sts: seq<Status>)
    ensures Framed(h, Irqs(h, sts))
    decreases |sts|
  {
    hide Irq;
    if sts != [] {
      IrqFrame(h, sts[0]);
      IrqsFrame(Irq(h, sts[0]), sts[1..]);
    }
  }

  // ---- Buffers and fifo ----

  function Buffers(h: Host): seq<nat> {
    if h.mrq.None? || h.mrq.value.data.None? then [] else h.mrq.value.data.value.sg
  }

  function BuffersLeft(h: Host): nat { if h.sgptr < |Buffers(h)| then |Buffers(h)| - h.sgptr else 0 }

  predicate HasBuffer(h: Host) { h.pio != NoXfer && h.sgptr < |Buffers(h)| }

  /** get_data_buffer when there is one */
  function TakeBuffer(h: Host): Host
    requires HasBuffer(h)
  {
    h.(words := Buffers(h)[h.sgptr], sgptr := h.sgptr + 1)
  }

  function Dry(h: Host): Host { h.(pio := NoXfer, completeWhat := Finalize) }

  function Min(a: nat, b: nat): nat { if a <= b then a else b }

  /** What happens around one run of the tasklet: the words that arrive before each look into the
      fifo, the room and the words sent at each look of a write, the interrupts that strike within
      the loops and between the parts, and whether clearing the fifo status empties the fifo. */
  datatype Env = Env(arrive: nat -> nat, room: nat -> nat, sent: nat -> nat,
                     within: nat -> seq<Status>, between: nat -> seq<Status>, flush: bool)

  predicate WantsMore(h: Host) { h.words > 0 || HasBuffer(h) }

  function Current(h: Host): Host
    requires WantsMore(h)
  {
    if h.words == 0 then TakeBuffer(h) else h
  }

  /** The words of one look at a fifo that holds `level`: they fit the current buffer. */
  function Gulped(h: Host, level: nat): nat
    requires WantsMore(h)
  {
    Min(level, Current(h).words)
  }

  /** They go into the buffer. */
  function Gulp(h: Host, level: nat): Host
    requires WantsMore(h)
  {
    var n := Gulped(h, level);
    Current(h).(words := Current(h).words - n, fifo := level - n)
  }

  lemma GulpShrinks(h: Host, level: nat)
    requires WantsMore(h) && level > 0
    ensures var g := Gulp(h, level);
      BuffersLeft(g) < BuffersLeft(h) || (BuffersLeft(g) == BuffersLeft(h) && g.words < h.words)
  {
  }

  /** The loop of do_pio_read; true if the buffers ran out. */
  function ReadLoop(h: Host, env: Env, k: nat): (Host, bool)
    decreases BuffersLeft(h), h.words
  {
    var level := h.fifo + env.arrive(k);
    if level == 0 then (h, false)
    else
      IrqsFrame(h.(fifo := level), env.within(k));
      var h1 := Irqs(h.(fifo := level), env.within(k));
      if !WantsMore(h1) then (Dry(h1), true)
      else
        GulpShrinks(h1, level);
        ReadLoop(Gulp(h1, level), env, k + 1)
  }

  /** do_pio_read */
  function PioRead(h: Host, env: Env): Host {
    var (h1, dry) := ReadLoop(h, env, 0);
    if dry || h1.words > 0 then h1 else if HasBuffer(h1) then TakeBuffer(h1) else Dry(h1)
  }

  /** Words go from the current buffer into the fifo, after `sent` have left it. */
  function Push(h: Host, room: nat, sent: nat): Host
    requires WantsMore(h)
  {
    var n := Gulped(h, room);
    Current(h).(words := Current(h).words - n, fifo := n + if sent < h.fifo then h.fifo - sent else 0)
  }

  /** do_pio_write */
  function PioWrite(h: Host, env: Env, k: nat): Host
    decreases BuffersLeft(h), h.words
  {
    if env.room(k) == 0 then h
    else
      IrqsFrame(h, env.within(k));
      var h1 := Irqs(h, env.within(k));
      if !WantsMore(h1) then h1.(pio := NoXfer)
      else
        GulpShrinks(h1, env.room(k));
        PioWrite(Push(h1, env.room(k), env.sent(k)), env, k + 1)
  }

  // ---- The tasklet ----

  function Complete(done: seq<nat>, id: nat): seq<nat> { if id < |done| then done[id := done[id] + 1] else done }

  /** s3cmci_send_command */
  function SendCommand(h: Host, rsp: bool, data: bool): Host {
    h.(completeWhat := if data then XferFinishRspFin else if rsp then RspFin else CmdSent, live := true)
  }

  function EnableIrq(h: Host): Host { h.(depth := if h.depth > 0 then h.depth - 1 else 0) }

  /** Clearing the fifo status, before any command is sent. */
  function ClearStatus(h: Host, flush: bool): Host { h.(fifo := if flush then 0 else h.fifo) }

  /** The request is done. A failed transfer resets the fifo. */
  function Completed(h: Host, r: Request): Host {
    h.(completeWhat := Nothing, mrq := None, live := false, done := Complete(h.done, r.id),
       fifo := if r.data.Some? && h.failed then 0 else h.fifo)
  }

  /** finalize_request: send the stop command, or complete the request. */
  function FinalizeRequest(h: Host, flush: bool): Host {
    if h.mrq.None? || (h.cmdIsStop && h.mrq.value.stop.None?) then h.(oops := true)
    else
      var r := h.mrq.value;
      if !h.cmdIsStop && r.data.Some? && r.stop.Some? then
        EnableIrq(SendCommand(ClearStatus(h.(cmdIsStop := true), flush), r.stop.value, false))
      else Completed(h, r)
  }

  /** The last part of the tasklet, once everything awaited has happened. A transfer that is still
      active is reported in the data of the request, which a request without data has not got. */
  function Finish(h: Host, flush: bool): Host {
    if h.pio != NoXfer && (h.mrq.None? || h.mrq.value.data.None?) then h.(oops := true)
    else FinalizeRequest(h.(depth := h.depth + 1, failed := h.failed || h.pio != NoXfer), flush)
  }

  /** The data part of the tasklet. */
  function Transfer(h: Host, env: Env): Host {
    var h1 := if h.pio.Write? then PioWrite(h, env, 0) else h;
    var h2 := Irqs(h1, env.between(0));
    var h3 := if h2.pio.Read? then PioRead(h2, env) else h2;
    Irqs(h3, env.between(1))
  }

  /** pio_tasklet, if it is scheduled */
  function Tasklet(h: Host, env: Env): Host {
    if !h.scheduled || h.oops then h
    else
      var h1 := Transfer(h.(scheduled := false), env);
      if h1.completeWhat == Finalize then Finish(h1, env.flush) else h1
  }

  // ---- A new request ----

  /** How the hardware takes a request: is an old transfer still in progress, and does clearing the
      fifo status empty the fifo? A run of the tasklet left over from before may strike at any of
      five places, and in each round of filling the fifo for a write. */
  datatype Launch = Launch(busy: bool, flush: bool, room: nat -> nat, sent: nat -> nat,
                           gaps: nat -> Option<Env>, rounds: nat -> Option<Env>)

  function Strike(h: Host, gap: Option<Env>): Host { if gap.Some? then Tasklet(h, gap.value) else h }

  /** Not further from the end of the buffers. */
  predicate NoFurther(h: Host, h': Host) {
    BuffersLeft(h') < BuffersLeft(h) || (BuffersLeft(h') == BuffersLeft(h) && h'.words <= h.words)
  }

  lemma {:induction false} ReadNoFurther(h: Host, env: Env, k: nat)
    ensures NoFurther(h, ReadLoop(h, env, k).0)
    decreases BuffersLeft(h), h.words
  {
    hide Irqs, Gulp, WantsMore, BuffersLeft;
    var level := h.fifo + env.arrive(k);
    if level != 0 {
      IrqsNoFurther(h.(fifo := level), env.within(k));
      var h1 := Irqs(h.(fifo := level), env.within(k));
      SameLeft(h, level);
      DryNoFurther(h1);
      if WantsMore(h1) {
        GulpShrinks(h1, level);
        ReadNoFurther(Gulp(h1, level), env, k + 1);
      }
    }
  }

  lemma SameLeft(h: Host, level: nat)
    ensures BuffersLeft(h.(fifo := level)) == BuffersLeft(h)
    ensures BuffersLeft(h.(scheduled := false)) == BuffersLeft(h)
  {
  }

  lemma DryNoFurther(h: Host)
    ensures BuffersLeft(Dry(h)) == BuffersLeft(h) && BuffersLeft(h.(pio := NoXfer)) == BuffersLeft(h)
  {
  }

  lemma IrqsNoFurther(h: Host, sts: seq<Status>)
    ensures Irqs(h, sts).words == h.words && BuffersLeft(Irqs(h, sts)) == BuffersLeft(h)
  {
    hide Irqs;
    IrqsFrame(h, sts);
  }

  lemma {:induction false} WriteNoFurther(h: Host, env: Env, k: nat)
    ensures NoFurther(h, PioWrite(h, env, k))
    decreases BuffersLeft(h), h.words
  {
    hide Irqs, Gulp, Push, WantsMore, BuffersLeft;
    if env.room(k) != 0 {
      IrqsNoFurther(h, env.within(k));
      var h1 := Irqs(h, env.within(k));
      DryNoFurther(h1);
      if WantsMore(h1) {
        PushShrinks(h, env.room(k), env.sent(k), env.within(k));
        WriteNoFurther(Push(h1, env.room(k), env.sent(k)), env, k + 1);
      }
    }
  }

  lemma PioReadNoFurther(h: Host, env: Env)
    ensures NoFurther(h, PioRead(h, env))
  {
    hide ReadLoop;
    ReadNoFurther(h, env, 0);
  }

  lemma TransferNoFurther(h: Host, env: Env)
    ensures NoFurther(h, Transfer(h, env))
  {
    hide Irqs, PioRead, PioWrite, BuffersLeft;
    WriteNoFurther(h, env, 0);
    var h1 := if h.pio.Write? then PioWrite(h, env, 0) else h;
    IrqsNoFurther(h1, env.between(0));
    var h2 := Irqs(h1, env.between(0));
    PioReadNoFurther(h2, env);
    var h3 := if h2.pio.Read? then PioRead(h2, env) else h2;
    IrqsNoFurther(h3, env.between(1));
  }

  lemma FinishNoFurther(h: Host, flush: bool)
    ensures NoFurther(h, Finish(h, flush))
  {
  }

  lemma StrikeShrinks(h: Host, gap: Option<Env>)
    ensures NoFurther(h, Strike(h, gap))
  {
    hide Transfer, Finish, BuffersLeft;
    if gap.Some? && h.scheduled && !h.oops {
      var h0 := h.(scheduled := false);
      SameLeft(h, 0);
      TransferNoFurther(h0, gap.value);
      FinishNoFurther(Transfer(h0, gap.value), gap.value.flush);
    }
  }

  /** Completed on the spot, without the hardware; the host keeps its pointer to the request. */
  function Reject(h: Host, id: nat): Host { h.(done := Complete(h.done, id)) }

  /** The transfer is busy, or its direction flags contradict each other. */
  predicate Refused(r: Request, l: Launch) {
    r.data.Some? && (l.busy || r.data.value.write == r.data.value.read)
  }

  function HandIn(h: Host, r: Request): Host { h.(cmdIsStop := false, mrq := Some(r), failed := false) }

  function Rewind(h: Host, l: Launch): Host { Strike(h.(sgptr := 0), l.gaps(1)).(words := 0) }

  function Activate(h: Host, d: Data): Host { h.(pio := if d.write then Write else Read) }

  /** do_pio_write from s3cmci_prepare_pio, with the interrupt disabled. */
  function Fill(h: Host, l: Launch, k: nat): Host
    decreases BuffersLeft(h), h.words
  {
    if l.room(k) == 0 then h
    else
      StrikeShrinks(h, l.rounds(k));
      var h1 := Strike(h, l.rounds(k));
      if !WantsMore(h1) then h1.(pio := NoXfer)
      else
        GulpShrinks(h1, l.room(k));
        Fill(Push(h1, l.room(k), l.sent(k)), l, k + 1)
  }

  /** s3cmci_prepare_pio */
  function PreparePio(h: Host, d: Data, l: Launch): Host {
    var h1 := Activate(Strike(Rewind(h, l), l.gaps(2)), d);
    if d.write then Fill(h1, l, 0) else h1
  }

  /** s3cmci_request */
  function Submit(h: Host, r: Request, l: Launch): Host {
    var h1 := Strike(HandIn(h, r), l.gaps(0));
    if h1.oops then h1
    else if r.suppressed then Reject(h1, r.id)
    else
      var h2 := ClearStatus(h1, l.flush);
      if Refused(r, l) then Reject(h2, r.id)
      else Transmit(if r.data.Some? then PreparePio(h2, r.data.value, l) else h2, r, l)
  }

  /** The end of s3cmci_send_request */
  function Transmit(h: Host, r: Request, l: Launch): Host {
    var h1 := Strike(h, l.gaps(3));
    if h1.oops then h1
    else
      var h2 := Strike(SendCommand(h1, r.rsp, r.data.Some?), l.gaps(4));
      if h2.oops then h2 else EnableIrq(h2)
  }

  // ---- What the data part leaves alone ----

  predicate PositiveBuffers(h: Host) { forall i :: 0 <= i < |Buffers(h)| ==> Buffers(h)[i] > 0 }

  /** The data part changes the transfer only; a command awaited is still awaited, or finalized. */
  predicate Moved(h: Host, h': Host) {
    && h'.mrq == h.mrq && h'.cmdIsStop == h.cmdIsStop && h'.depth == h.depth && h'.live == h.live
    && h'.done == h.done && h'.oops == h.oops
    && (h.completeWhat != Nothing ==> h'.completeWhat != Nothing)
    && (h.completeWhat == Finalize ==> h'.completeWhat == Finalize)
    && (h.completeWhat == RspFin || h.completeWhat == CmdSent ==>
          h'.completeWhat == h.completeWhat || h'.completeWhat == Finalize)
    && (h'.pio == h.pio || h'.pio == NoXfer)
  }

  lemma IrqsMove(h: Host, sts: seq<Status>)
    ensures Moved(h, Irqs(h, sts)) && Irqs(h, sts).words == h.words && Irqs(h, sts).fifo == h.fifo
    ensures h.completeWhat == Nothing ==> Irqs(h, sts) == h
  {
    hide Irqs;
    IrqsFrame(h, sts);
  }

  lemma GulpMoves(h: Host, level: nat, sent: nat)
    requires WantsMore(h)
    ensures var g := Gulp(h, level); g == h.(words := g.words, sgptr := g.sgptr, fifo := g.fifo)
    ensures Push(h, level, sent) == Gulp(h, level).(fifo := Push(h, level, sent).fifo)
  {
  }

  lemma {:induction false} ReadLoopMoves(h: Host, env: Env, k: nat)
    ensures var (h', dry) := ReadLoop(h, env, k);
      Moved(h, h') && (if dry then h'.pio == NoXfer else h'.fifo == 0)
    decreases BuffersLeft(h), h.words
  {
    hide Irqs, Gulp, WantsMore, Irq;
    var level := h.fifo + env.arrive(k);
    if level != 0 {
      IrqsFrame(h.(fifo := level), env.within(k));
      var h1 := Irqs(h.(fifo := level), env.within(k));
      if WantsMore(h1) {
        GulpShrinks(h1, level);
        GulpMoves(h1, level, 0);
        ReadLoopMoves(Gulp(h1, level), env, k + 1);
      }
    }
  }

  /** A read that goes on has room left in its buffer and has emptied the fifo. */
  lemma PioReadMoves(h: Host, env: Env)
    requires PositiveBuffers(h)
    ensures var h' := PioRead(h, env); Moved(h, h') && (h'.pio == Read ==> h'.words > 0 && h'.fifo == 0)
  {
    hide ReadLoop;
    ReadLoopMoves(h, env, 0);
    var (h1, _) := ReadLoop(h, env, 0);
    assert Buffers(h1) == Buffers(h);
  }

  lemma {:induction false} PioWriteMoves(h: Host, env: Env, k: nat)
    ensures var h' := PioWrite(h, env, k);
      Moved(h, h') && (h.completeWhat == Nothing ==> h'.completeWhat == Nothing && h'.scheduled == h.scheduled)
    decreases BuffersLeft(h), h.words
  {
    hide Irqs, Gulp, Push, WantsMore;
    if env.room(k) != 0 {
      IrqsFrame(h, env.within(k));
      var h1 := Irqs(h, env.within(k));
      if WantsMore(h1) {
        GulpShrinks(h1, env.room(k));
        GulpMoves(h1, env.room(k), env.sent(k));
        PioWriteMoves(Push(h1, env.room(k), env.sent(k)), env, k + 1);
      }
    }
  }

  lemma TransferMoves(h: Host, env: Env)
    requires PositiveBuffers(h)
    ensures var h' := Transfer(h, env); Moved(h, h') && (h'.pio == Read ==> h'.words > 0 && h'.fifo == 0)
  {
    hide Irqs, PioRead, PioWrite;
    PioWriteMoves(h, env, 0);
    var h1 := if h.pio.Write? then PioWrite(h, env, 0) else h;
    IrqsMove(h1, env.between(0));
    var h2 := Irqs(h1, env.between(0));
    assert Buffers(h2) == Buffers(h);
    PioReadMoves(h2, env);
    var h3 := if h2.pio.Read? then PioRead(h2, env) else h2;
    IrqsMove(h3, env.between(1));
  }

  // ---- With nothing outstanding ----

  function SumFrom(sg: seq<nat>, i: nat): nat
    decreases |sg| - i
  {
    if i < |sg| then sg[i] + SumFrom(sg, i + 1) else 0
  }

  /** The words a read still wants: the rest of its buffer and the buffers after it. */
  function Wanted(h: Host): nat { h.words + SumFrom(Buffers(h), h.sgptr) }

  /** The words the fifo hands over to a read until it is first found empty. */
  function Handed(h: Host, env: Env, k: nat): nat
    decreases BuffersLeft(h), h.words
  {
    var level := h.fifo + env.arrive(k);
    if level == 0 || !WantsMore(h) then 0
    else
      GulpShrinks(h, level);
      Gulped(h, level) + Handed(Gulp(h, level), env, k + 1)
  }

  lemma GulpWanted(h: Host, level: nat)
    requires WantsMore(h)
    ensures var g := Gulp(h, level);
      Wanted(g) + Gulped(h, level) == Wanted(h) && Buffers(g) == Buffers(h) && g.pio == h.pio
      && g.fifo + Gulped(h, level) == level && Gulped(h, level) <= Wanted(h)
  {
  }

  /** A read is active, and the fifo hands over all it wants. */
  predicate Drains(h: Host, env: Env) { h.pio == Read && Handed(h, env, 0) >= Wanted(h) }

  predicate Still(env: Env, k: nat) { env.arrive(k) == 0 }

  /** With nothing arriving the fifo hands over what it holds, as far as it is wanted. */
  lemma {:induction false} HandedStill(h: Host, env: Env, k: nat)
    requires h.pio == Read && forall j :: Still(env, j)
    ensures Handed(h, env, k) == Min(h.fifo, Wanted(h))
    decreases BuffersLeft(h), h.words
  {
    hide Gulp, Gulped, Wanted, WantsMore;
    assert Still(env, k);
    WantedIff(h);
    if h.fifo > 0 && WantsMore(h) {
      GulpShrinks(h, h.fifo);
      GulpWanted(h, h.fifo);
      HandedStill(Gulp(h, h.fifo), env, k + 1);
    }
  }

  lemma WantedIff(h: Host)
    requires h.pio == Read
    ensures !WantsMore(h) ==> Wanted(h) == 0
    ensures PositiveBuffers(h) && WantsMore(h) ==> Wanted(h) > 0
  {
  }

  /** No interrupt strikes within the loops, or none that does anything. */
  ghost predicate Undisturbed(h: Host, env: Env) { h.completeWhat == Nothing || forall k: nat :: Calm(env, k) }

  predicate Calm(env: Env, k: nat) { env.within(k) == [] }

  lemma {:induction false} ReadLoopAtRest(h: Host, env: Env, k: nat)
    requires Undisturbed(h, env) && h.pio == Read
    ensures var (h', dry) := ReadLoop(h, env, k);
      if dry then Handed(h, env, k) == Wanted(h) && h' == Dry(h.(fifo := h'.fifo, words := h'.words, sgptr := h'.sgptr))
      else h' == h.(fifo := h'.fifo, words := h'.words, sgptr := h'.sgptr)
           && Handed(h, env, k) + Wanted(h') == Wanted(h)
    decreases BuffersLeft(h), h.words
  {
    hide Irqs, Gulp, Gulped, Wanted, WantsMore;
    var level := h.fifo + env.arrive(k);
    if level != 0 {
      var h1 := h.(fifo := level);
      assert Irqs(h1, env.within(k)) == h1 by { UndisturbedIrqs(h, h1, env, k); }
      SameWants(h, level);
      WantedIff(h);
      if WantsMore(h) {
        GulpShrinks(h, level);
        GulpWanted(h, level);
        GulpMoves(h, level, 0);
        ReadLoopAtRest(Gulp(h, level), env, k + 1);
      }
    }
  }

  lemma UndisturbedIrqs(h: Host, h1: Host, env: Env, k: nat)
    requires Undisturbed(h, env) && h1.completeWhat == h.completeWhat
    ensures Irqs(h1, env.within(k)) == h1
  {
    IrqsFrame(h1, env.within(k));
    if h.completeWhat != Nothing { assert Calm(env, k); }
  }

  /** How full the fifo was before a look does not matter. */
  lemma SameWants(h: Host, level: nat)
    ensures var h1 := h.(fifo := level);
      && WantsMore(h1) == WantsMore(h) && Wanted(h1) == Wanted(h)
      && (WantsMore(h) ==> Gulp(h1, level) == Gulp(h, level))
      && (WantsMore(h) ==> var g := Gulp(h, level); g == h.(fifo := g.fifo, words := g.words, sgptr := g.sgptr))
  {
  }

  lemma PioReadAtRest(h: Host, env: Env)
    requires Undisturbed(h, env) && h.pio == Read && PositiveBuffers(h)
    ensures var h' := PioRead(h, env);
      && h'.completeWhat == (if Drains(h, env) then Finalize else h.completeWhat)
      && (Drains(h, env) ==> h'.pio == NoXfer) && h'.scheduled == h.scheduled
  {
    hide ReadLoop, Handed;
    ReadLoopAtRest(h, env, 0);
    ReadLoopMoves(h, env, 0);
    var (h1, dry) := ReadLoop(h, env, 0);
    if !dry && h1.words == 0 && HasBuffer(h1) { assert Buffers(h1)[h1.sgptr] > 0; }
  }

  /** With nothing outstanding, the data part finalizes exactly when a read is active and the fifo
      hands over all the words it still wants. */
  lemma RestFinalizesIff(h: Host, env: Env)
    requires h.completeWhat == Nothing && PositiveBuffers(h)
    ensures var h' := Transfer(h, env);
      && (h'.completeWhat == Finalize <==> Drains(h, env))
      && (h'.completeWhat == Nothing <==> !Drains(h, env))
      && (Drains(h, env) ==> h'.pio == NoXfer) && h'.scheduled == h.scheduled
  {
    hide Irqs, PioRead, PioWrite, Handed, Wanted;
    PioWriteMoves(h, env, 0);
    var h1 := if h.pio.Write? then PioWrite(h, env, 0) else h;
    IrqsMove(h1, env.between(0));
    var h3 := h1;
    if h1.pio.Read? {
      PioReadAtRest(h1, env);
      h3 := PioRead(h1, env);
      if Drains(h1, env) { FinalizedIrqs(h3, env.between(1)); }
    }
    IrqsMove(h3, env.between(1));
  }

  /** So does an active read with a command outstanding, if no interrupt strikes and it has not been
      finalized before. */
  lemma ReadFinalizesIff(h: Host, env: Env)
    requires Undisturbed(h, env) && env.between(0) == env.between(1) == [] && PositiveBuffers(h)
    requires h.pio == Read && h.completeWhat != Finalize
    ensures Transfer(h, env).completeWhat == Finalize <==> Drains(h, env)
  {
    hide PioRead, PioWrite, Handed, Wanted;
    PioReadAtRest(h, env);
  }

  lemma {:induction false} FinalizedIrqs(h: Host, sts: seq<Status>)
    requires h.completeWhat == Finalize
    ensures Irqs(h, sts) == h
    decreases |sts|
  {
    if sts != [] { FinalizedIrqs(h, sts[1..]); }
  }

  /** And when nothing arrives, that is when the fifo holds them. */
  lemma RestFinalizesStillIff(h: Host, env: Env)
    requires h.completeWhat == Nothing && PositiveBuffers(h) && forall j :: Still(env, j)
    ensures Transfer(h, env).completeWhat == Finalize <==> h.pio == Read && h.fifo >= Wanted(h)
  {
    RestFinalizesIff(h, env);
    if h.pio == Read { HandedStill(h, env, 0); }
  }

  // ---- The fields updated in place ----

  /** A round of the loops comes nearer to the end of the buffers. */
  lemma RoundShrinks(h: Host, level: nat, sts: seq<Status>)
    requires level > 0
    ensures var h1 := Irqs(h.(fifo := level), sts);
      WantsMore(h1) ==> var g := Gulp(h1, level);
        BuffersLeft(g) < BuffersLeft(h) || (BuffersLeft(g) == BuffersLeft(h) && g.words < h.words)
  {
    hide Irqs, Gulp;
    var h1 := Irqs(h.(fifo := level), sts);
    IrqsFrame(h.(fifo := level), sts);
    if WantsMore(h1) { GulpShrinks(h1, level); }
  }

  lemma PushShrinks(h: Host, room: nat, sent: nat, sts: seq<Status>)
    requires room > 0
    ensures var h1 := Irqs(h, sts);
      WantsMore(h1) ==> var g := Push(h1, room, sent);
        BuffersLeft(g) < BuffersLeft(h) || (BuffersLeft(g) == BuffersLeft(h) && g.words < h.words)
  {
    hide Irqs, Gulp, Push;
    var h1 := Irqs(h, sts);
    IrqsFrame(h, sts);
    if WantsMore(h1) {
      GulpShrinks(h1, room);
      GulpMoves(h1, room, sent);
    }
  }

  class S3cMci {
    var completeWhat: Waitfor
    var mrq: Option<Request>
    var cmdIsStop: bool
    var pioActive: Xfer
    var pioWords: nat
    var pioSgptr: nat
    var irqDepth: nat
    var scheduled: bool
    var oops: bool
    /** Set in the errors of the command and its data. */
    var failed: bool
    /** Words in the fifo of the controller. */
    var fifo: nat
    ghost var live: bool
    ghost var done: seq<nat>

    ghost function Value(): Host
      reads this
    {
      Host(completeWhat, mrq, cmdIsStop, pioActive, pioWords, pioSgptr, fifo, failed,
           irqDepth, scheduled, live, done, oops)
    }

    constructor ()
      ensures Value() == Initial
    {
      completeWhat, mrq, cmdIsStop, pioActive, pioWords, pioSgptr := Nothing, None, false, NoXfer, 0, 0;
      fifo, failed, irqDepth, scheduled, oops, live, done := 0, false, 1, false, false, false, [];
    }

    /** s3cmci_irq */
    method HandleIrq(st: Status)
      modifies this
      ensures Value() == Irq(old(Value()), st)
    {
      hide Kick, Settle, Fail, Close;
      if irqDepth != 0 || completeWhat == Nothing || completeWhat == Finalize { return; }
      if mrq.None? || (cmdIsStop && mrq.value.stop.None?) { return; }
      KickTasklet(st);
      KickFrame(old(Value()), st);
      if st.timeout { CloseTransfer(true); return; }
      if st.sent && completeWhat == CmdSent { CloseTransfer(false); return; }
      if st.response {
        if completeWhat == RspFin { CloseTransfer(false); return; }
        if completeWhat == XferFinishRspFin { completeWhat := XferFinish; }
      }
      SettleData(st);
    }

    method KickTasklet(st: Status)
      modifies this
      ensures Value() == Kick(old(Value()), st)
    {
      if pioActive == Write && st.txReady { scheduled := true; }
      if pioActive == Read && st.rxReady { scheduled := true; }
    }

    /** The part of s3cmci_irq after the response bits. */
    method SettleData(st: Status)
      modifies this
      ensures Value() == Settle(old(Value()), st)
    {
      hide Fail, Close;
      if mrq.None? || cmdIsStop || mrq.value.data.None? { return; }
      if st.dataFail { CloseTransfer(true); return; }
      if st.finished {
        if completeWhat == XferFinish { CloseTransfer(false); return; }
        if completeWhat == XferFinishRspFin { completeWhat := RspFin; }
      }
    }

    method CloseTransfer(fail: bool)
      modifies this
      ensures Value() == if fail then Fail(old(Value())) else Close(old(Value()))
    {
      if fail {
        pioActive := NoXfer;
        if !cmdIsStop { failed := true; }
      }
      completeWhat := Finalize;
      scheduled := true;
    }

    method HandleIrqs(sts: seq<Status>)
      modifies this
      ensures Value() == Irqs(old(Value()), sts)
    {
      hide Irq;
      assert sts[0..] == sts;
      for i := 0 to |sts|
        invariant Irqs(Value(), sts[i..]) == Irqs(old(Value()), sts)
      {
        assert sts[i..][0] == sts[i] && sts[i..][1..] == sts[i + 1..];
        HandleIrq(sts[i]);
      }
    }

    /** get_data_buffer */
    method GetDataBuffer() returns (ok: bool)
      modifies this
      ensures ok <==> HasBuffer(old(Value()))
      ensures Value() == if ok then TakeBuffer(old(Value())) else old(Value())
    {
      if pioActive == NoXfer || mrq.None? || mrq.value.data.None? { return false; }
      var sg := mrq.value.data.value.sg;
      if pioSgptr >= |sg| { return false; }
      pioWords, pioSgptr := sg[pioSgptr], pioSgptr + 1;
      return true;
    }

    /** One round of the loop of do_pio_read, which saw `level` words in the fifo. */
    method ReadRound(level: nat, sts: seq<Status>) returns (ok: bool)
      modifies this
      ensures var h := Irqs(old(Value()).(fifo := level), sts);
        (ok <==> WantsMore(h)) && Value() == if ok then Gulp(h, level) else h
    {
      hide Irqs;
      fifo := level;
      HandleIrqs(sts);
      assert fifo == level by { IrqsFrame(old(Value()).(fifo := level), sts); }
      if pioWords == 0 {
        ok := GetDataBuffer();
        if !ok { return; }
      }
      var n := Min(level, pioWords);
      fifo, pioWords := level - n, pioWords - n;
      ok := true;
    }

    /** One round of the loop of do_pio_write, which saw this much room in the fifo. */
    method WriteRound(room: nat, sent: nat, sts: seq<Status>) returns (ok: bool)
      modifies this
      ensures var h := Irqs(old(Value()), sts);
        (ok <==> WantsMore(h)) && Value() == if ok then Push(h, room, sent) else h
    {
      hide Irqs;
      HandleIrqs(sts);
      if pioWords == 0 {
        ok := GetDataBuffer();
        if !ok { return; }
      }
      var n := Min(room, pioWords);
      fifo, pioWords := n + if sent < fifo then fifo - sent else 0, pioWords - n;
      ok := true;
    }

    /** do_pio_read */
    method DoPioRead(env: Env)
      modifies this
      ensures Value() == PioRead(old(Value()), env)
    {
      hide Irqs, Gulp, WantsMore, BuffersLeft;
      ghost var h := Value();
      var k := 0;
      while fifo + env.arrive(k) != 0
        invariant ReadLoop(Value(), env, k) == ReadLoop(h, env, 0)
        decreases BuffersLeft(Value()), pioWords
      {
        var level := fifo + env.arrive(k);
        ghost var h0 := Value();
        RoundShrinks(h0, level, env.within(k));
        var ok := ReadRound(level, env.within(k));
        if !ok {
          pioActive, completeWhat := NoXfer, Finalize;
          return;
        }
        k := k + 1;
      }
      if pioWords == 0 {
        var ok := GetDataBuffer();
        if !ok { pioActive, completeWhat := NoXfer, Finalize; }
      }
    }

    /** do_pio_write */
    method DoPioWrite(env: Env)
      modifies this
      ensures Value() == PioWrite(old(Value()), env, 0)
    {
      hide Irqs, Push, WantsMore, BuffersLeft;
      ghost var h := Value();
      var k := 0;
      while env.room(k) != 0
        invariant PioWrite(Value(), env, k) == PioWrite(h, env, 0)
        decreases BuffersLeft(Value()), pioWords
      {
        ghost var h0 := Value();
        PushShrinks(h0, env.room(k), env.sent(k), env.within(k));
        var ok := WriteRound(env.room(k), env.sent(k), env.within(k));
        if !ok {
          pioActive := NoXfer;
          return;
        }
        k := k + 1;
      }
    }

    /** pio_tasklet */
    method PioTasklet(env: Env)
      modifies this
      ensures Value() == Tasklet(old(Value()), env)
    {
      hide Transfer, FinalizeRequest, Buffers;
      if !scheduled || oops { return; }
      scheduled := false;
      MoveData(env);
      if completeWhat == Finalize {
        if pioActive != NoXfer {
          if mrq.None? || mrq.value.data.None? { oops := true; return; }
          failed := true;
        }
        irqDepth := irqDepth + 1;
        FinalizeMrq(env.flush);
      }
    }

    /** The data part of the tasklet, with interrupts after each half. */
    method MoveData(env: Env)
      modifies this
      ensures Value() == Transfer(old(Value()), env)
    {
      hide Irqs, PioRead, PioWrite;
      if pioActive == Write { DoPioWrite(env); }
      HandleIrqs(env.between(0));
      if pioActive == Read { DoPioRead(env); }
      HandleIrqs(env.between(1));
    }

    /** finalize_request */
    method FinalizeMrq(flush: bool)
      modifies this
      ensures Value() == FinalizeRequest(old(Value()), flush)
    {
      hide SendCommand, Completed, ClearStatus;
      if mrq.None? || (cmdIsStop && mrq.value.stop.None?) { oops := true; return; }
      var r := mrq.value;
      if !cmdIsStop && r.data.Some? && r.stop.Some? {
        cmdIsStop := true;
        ClearFifo(flush);
        StartCommand(r.stop.value, false);
        irqDepth := if irqDepth > 0 then irqDepth - 1 else 0;
        return;
      }
      CompleteMrq(r);
    }

    method CompleteMrq(r: Request)
      modifies this
      ensures Value() == Completed(old(Value()), r)
    {
      if r.data.Some? && failed { fifo := 0; }
      completeWhat, mrq := Nothing, None;
      live, done := false, Complete(done, r.id);
    }

    method StartCommand(rsp: bool, data: bool)
      modifies this
      ensures Value() == SendCommand(old(Value()), rsp, data)
    {
      completeWhat := if data then XferFinishRspFin else if rsp then RspFin else CmdSent;
      live := true;
    }

    method StrikeTasklet(gap: Option<Env>)
      modifies this
      ensures Value() == Strike(old(Value()), gap)
    {
      if gap.Some? { PioTasklet(gap.value); }
    }

    /** s3cmci_request with s3cmci_send_request */
    method SubmitRequest(r: Request, l: Launch)
      modifies this
      ensures Value() == Submit(old(Value()), r, l)
    {
      hide Strike, PreparePio, Transmit, Complete, HandIn, ClearStatus;
      HandOver(r);
      StrikeTasklet(l.gaps(0));
      if oops { return; }
      if r.suppressed { done := Complete(done, r.id); return; }
      ClearFifo(l.flush);
      if r.data.Some? {
        var d := r.data.value;
        if l.busy || d.write == d.read { done := Complete(done, r.id); return; }
        PrepareTransfer(d, l);
      }
      TransmitCommand(r, l);
    }

    method HandOver(r: Request)
      modifies this
      ensures Value() == HandIn(old(Value()), r)
    {
      cmdIsStop, failed := false, false;
      mrq := Some(r);
    }

    method ClearFifo(flush: bool)
      modifies this
      ensures Value() == ClearStatus(old(Value()), flush)
    {
      if flush { fifo := 0; }
    }

    /** s3cmci_prepare_pio */
    method PrepareTransfer(d: Data, l: Launch)
      modifies this
      ensures Value() == PreparePio(old(Value()), d, l)
    {
      hide Fill, Strike;
      pioSgptr := 0;
      StrikeTasklet(l.gaps(1));
      pioWords := 0;
      StrikeTasklet(l.gaps(2));
      pioActive := if d.write then Write else Read;
      if d.write { FillFifo(l); }
    }

    /** do_pio_write from s3cmci_prepare_pio, with a left-over tasklet between its rounds. */
    method FillFifo(l: Launch)
      modifies this
      ensures Value() == Fill(old(Value()), l, 0)
    {
      hide Strike, Push, WantsMore, BuffersLeft;
      ghost var h := Value();
      var k := 0;
      while l.room(k) != 0
        invariant Fill(Value(), l, k) == Fill(h, l, 0)
        decreases BuffersLeft(Value()), pioWords
      {
        StrikeShrinks(Value(), l.rounds(k));
        StrikeTasklet(l.rounds(k));
        ghost var h1 := Value();
        PushShrinks(h1, l.room(k), l.sent(k), []);
        var ok := WriteRound(l.room(k), l.sent(k), []);
        if !ok {
          pioActive := NoXfer;
          return;
        }
        k := k + 1;
      }
    }

    method TransmitCommand(r: Request, l: Launch)
      modifies this
      ensures Value() == Transmit(old(Value()), r, l)
    {
      hide Strike, SendCommand;
      StrikeTasklet(l.gaps(3));
      if oops { return; }
      StartCommand(r.rsp, r.data.Some?);
      StrikeTasklet(l.gaps(4));
      if oops { return; }
      irqDepth := if irqDepth > 0 then irqDepth - 1 else 0;
    }
  }
}
