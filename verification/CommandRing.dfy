/** The ring of command blocks shared between the driver and the device. Blocks are counted from
    the start: block j lives in slot At(count, j), blocks below `clean` have been cleaned, those
    below `done` completed by the device and those below `use` queued by the driver. */
module CommandRings {
  import opened RingSlots

  /** S bit, completion flag and attached buffer (0 for none) of a block. */
  datatype Cb = Cb(s: bool, complete: bool, skb: nat)

  // ---- The device ----

  datatype Cmd = NoCmd | Start(slot: nat) | Resume

  /** Idle until started; then running, with block `done` fetched (was its S bit set?), or
      suspended after a block with the S bit. */
  datatype Dev = Idle | Suspended | Running | Fetched(last: bool)

  datatype Chip = Chip(dev: Dev, done: nat, pending: Cmd)

  /** Take the pending command, fetch a block, or finish it; `recheck`: the S bit is read again. */
  datatype Event = Accept | Fetch | Finish(recheck: bool)

  /** The blocks as the device sees them, and its own state. */
  datatype Machine = Machine(cbs: seq<Cb>, chip: Chip)

  /** The device; it writes nothing but the completion flag of the block it finishes. */
  function DevStep(m: Machine, e: Event): Machine {
    var Machine(cbs, chip) := m;
    var n := |cbs|;
    if n == 0 then m
    else match e
      case Accept =>
        if chip.pending.Start? && chip.dev.Idle? then m.(chip := chip.(dev := Running, pending := NoCmd))
        else if chip.pending.Resume? && chip.dev.Suspended? && chip.done > 0 && !cbs[At(n, chip.done - 1)].s then
          m.(chip := chip.(dev := Running, pending := NoCmd))
        else m.(chip := chip.(pending := if chip.pending.Start? then chip.pending else NoCmd))
      case Fetch =>
        if chip.dev.Running? then m.(chip := chip.(dev := Fetched(cbs[At(n, chip.done)].s))) else m
      case Finish(recheck) =>
        if !chip.dev.Fetched? then m
        else
          var i := At(n, chip.done);
          var stop := chip.dev.last && (!recheck || cbs[i].s);
          Machine(cbs[i := cbs[i].(complete := true)],
                  chip.(dev := if stop then Suspended else Running, done := chip.done + 1))
  }

  // ---- The invariant ----

  /** What the blocks hold: queued ones their buffer, and a flag once completed; free ones nothing. */
  ghost predicate Blocks(cbs: seq<Cb>, clean: nat, done: nat, use: nat, accepted: seq<nat>) {
    && |cbs| >= 2 && clean <= done <= use <= clean + |cbs| && |accepted| == use
    && (forall j :: clean <= j < use ==>
          cbs[At(|cbs|, j)].complete == (j < done) && cbs[At(|cbs|, j)].skb == accepted[j])
    && (forall j :: use <= j < clean + |cbs| ==> !cbs[At(|cbs|, j)].complete && cbs[At(|cbs|, j)].skb == 0)
  }

  /** The last of the first `limit` blocks carries the S bit, and the device is before it. */
  ghost predicate Guarded(cbs: seq<Cb>, chip: Chip, limit: nat)
    requires |cbs| > 0
  {
    && (limit > 0 ==> cbs[At(|cbs|, limit - 1)].s)
    && chip.done <= limit
    && (chip.dev.Idle? ==> chip.done == 0)
    && (chip.dev.Running? ==> chip.done < limit)
    && (chip.dev.Fetched? ==> chip.done < limit && (!chip.dev.last ==> chip.done + 1 < limit))
    && (chip.pending.Start? ==> chip.pending.slot == 0 && chip.dev.Idle? && limit > 0)
    && (chip.pending.Resume? ==> !chip.dev.Idle?)
  }

  /** Of the queued blocks exactly the last carries the S bit. */
  ghost predicate OnlyLast(cbs: seq<Cb>, clean: nat, use: nat)
    requires |cbs| > 0
  {
    forall j :: clean <= j < use ==> (cbs[At(|cbs|, j)].s <==> j == use - 1)
  }

  /** One device step stays within the queued blocks. */
  lemma DevStepSafe(
    cbs: seq<Cb>, chip: Chip, e: Event, clean: nat, use: nat, accepted: seq<nat>, limit: nat)
    requires Blocks(cbs, clean, chip.done, use, accepted) && limit <= use && Guarded(cbs, chip, limit)
    ensures var Machine(c, d) := DevStep(Machine(cbs, chip), e);
      Blocks(c, clean, d.done, use, accepted) && Guarded(c, d, limit)
      && forall i :: 0 <= i < |cbs| ==> c[i].s == cbs[i].s
  {
    if e.Finish? && chip.dev.Fetched? {
      FinishSafe(cbs, chip.done, clean, use, accepted);
    }
  }

  lemma FinishSafe(cbs: seq<Cb>, done: nat, clean: nat, use: nat, accepted: seq<nat>)
    requires Blocks(cbs, clean, done, use, accepted) && done < use
    ensures var i := At(|cbs|, done); Blocks(cbs[i := cbs[i].(complete := true)], clean, done + 1, use, accepted)
  {
    var n := |cbs|;
    forall j | clean <= j < clean + n && j != done ensures At(n, j) != At(n, done) {
      if j < done { AtApart(n, j, done); } else { AtApart(n, done, j); }
    }
  }

  const Untouched := Chip(Idle, 0, NoCmd)

  predicate Started(chip: Chip) { chip.pending.Start? || !chip.dev.Idle? }

  lemma {:induction false} DevRunSafe(
    cbs: seq<Cb>, chip: Chip, es: seq<Event>, clean: nat, use: nat, accepted: seq<nat>, limit: nat)
    requires Blocks(cbs, clean, chip.done, use, accepted) && limit <= use && Guarded(cbs, chip, limit)
    ensures var Machine(c, d) := Iterate(DevStep, Machine(cbs, chip), es);
      && Blocks(c, clean, d.done, use, accepted) && Guarded(c, d, limit) && |c| == |cbs|
      && (forall i :: 0 <= i < |cbs| ==> c[i].s == cbs[i].s) && chip.done <= d.done
      && (Started(chip) ==> Started(d)) && (chip == Untouched ==> c == cbs && d == chip)
    decreases |es|
  {
    hide Blocks, Guarded;
    if es != [] {
      DevStepSafe(cbs, chip, es[0], clean, use, accepted, limit);
      var Machine(c, d) := DevStep(Machine(cbs, chip), es[0]);
      DevRunSafe(c, d, es[1..], clean, use, accepted, limit);
    }
  }

  /** k blocks fetched and finished, if the device runs so long. */
  function Pump(m: Machine, k: nat): Machine
    decreases k
  {
    if k == 0 then m else Pump(Iterate(DevStep, m, [Fetch, Finish(false)]), k - 1)
  }

  /** A device running from any of the first `limit` blocks meets an S bit among them. */
  lemma {:induction false} MeetsEndMark(
    cbs: seq<Cb>, chip: Chip, limit: nat, clean: nat, use: nat, accepted: seq<nat>)
    requires Blocks(cbs, clean, chip.done, use, accepted) && limit <= use && Guarded(cbs, chip, limit)
    requires chip.dev.Running? || chip.dev.Suspended?
    ensures var d := Pump(Machine(cbs, chip), limit - chip.done).chip;
      d.dev.Suspended? && chip.done <= d.done <= limit
    decreases limit - chip.done
  {
    var m := Machine(cbs, chip);
    if chip.dev.Running? {
      PumpRound(m);
      DevRunSafe(cbs, chip, [Fetch, Finish(false)], clean, use, accepted, limit);
      var m1 := Iterate(DevStep, m, [Fetch, Finish(false)]);
      MeetsEndMark(m1.cbs, m1.chip, limit, clean, use, accepted);
      if m1.chip.dev.Suspended? {
        PumpIdle(m1, limit - chip.done - 1);
        PumpIdle(m1, limit - m1.chip.done);
      }
    } else {
      PumpIdle(m, limit - chip.done);
    }
  }

  lemma TwoSteps(m: Machine)
    ensures Iterate(DevStep, m, [Fetch, Finish(false)]) == DevStep(DevStep(m, Fetch), Finish(false))
  {
    hide DevStep;
    assert [Fetch, Finish(false)][1..] == [Finish(false)];
  }

  lemma PumpRound(m: Machine)
    requires |m.cbs| > 0 && m.chip.dev.Running?
    ensures var d := Iterate(DevStep, m, [Fetch, Finish(false)]).chip;
      d.done == m.chip.done + 1 && (d.dev.Running? || d.dev.Suspended?)
  {
    TwoSteps(m);
  }

  lemma {:induction false} PumpIdle(m: Machine, k: nat)
    requires |m.cbs| > 0 && m.chip.dev.Suspended?
    ensures Pump(m, k) == m
  {
    if k > 0 {
      TwoSteps(m);
      PumpIdle(m, k - 1);
    }
  }

  // ---- The driver's writes ----

  /** Block `use` gets its buffer and its command; the device cannot reach it yet. */
  lemma TakeSafe(cbs: seq<Cb>, chip: Chip, clean: nat, use: nat, accepted: seq<nat>, skb: nat)
    requires Blocks(cbs, clean, chip.done, use, accepted) && use < clean + |cbs| && Guarded(cbs, chip, use)
    requires OnlyLast(cbs, clean, use)
    ensures var i := At(|cbs|, use); var c := cbs[i := Cb(false, cbs[i].complete, skb)];
      Blocks(c, clean, chip.done, use + 1, accepted + [skb]) && Guarded(c, chip, use) && OnlyLast(c, clean, use)
  {
    var n := |cbs|;
    forall j | clean <= j < clean + n && j != use ensures At(n, j) != At(n, use) {
      if j < use { AtApart(n, j, use); } else { AtApart(n, use, j); }
    }
    if use > 0 { AtApart(n, use - 1, use); }
  }

  /** First write: the S bit of the new block. The device is still held up by the previous one. */
  lemma MarkSafe(cbs: seq<Cb>, chip: Chip, clean: nat, use: nat, accepted: seq<nat>)
    requires Blocks(cbs, clean, chip.done, use + 1, accepted) && Guarded(cbs, chip, use) && OnlyLast(cbs, clean, use)
    ensures var i := At(|cbs|, use); var c := cbs[i := cbs[i].(s := true)];
      Blocks(c, clean, chip.done, use + 1, accepted) && Guarded(c, chip, use) && Guarded(c, chip, use + 1)
      && OnlyLast(c, clean, use)
  {
    var n := |cbs|;
    forall j | clean <= j < use ensures At(n, j) != At(n, use) { AtApart(n, j, use); }
  }

  /** Second write: the S bit of the previous block is cleared. */
  lemma UnmarkSafe(cbs: seq<Cb>, chip: Chip, clean: nat, use: nat, accepted: seq<nat>)
    requires Blocks(cbs, clean, chip.done, use + 1, accepted)
    requires Guarded(cbs, chip, use + 1) && OnlyLast(cbs, clean, use)
    ensures var i := Prev(|cbs|, At(|cbs|, use)); var c := cbs[i := cbs[i].(s := false)];
      Blocks(c, clean, chip.done, use + 1, accepted) && Guarded(c, chip, use + 1) && OnlyLast(c, clean, use + 1)
  {
    var n := |cbs|;
    if use > 0 {
      AtPrev(n, use);
      forall j | clean <= j < use - 1 ensures At(n, j) != At(n, use - 1) { AtApart(n, j, use - 1); }
    }
  }

  /** The oldest block is found complete exactly when the device has finished it. */
  lemma CompleteIff(cbs: seq<Cb>, clean: nat, done: nat, use: nat, accepted: seq<nat>)
    requires Blocks(cbs, clean, done, use, accepted)
    ensures cbs[At(|cbs|, clean)].complete <==> clean < done
    ensures clean < use ==> cbs[At(|cbs|, clean)].skb == accepted[clean]
    ensures clean <= done <= use
  {
  }

  lemma QueuedSkb(cbs: seq<Cb>, clean: nat, done: nat, use: nat, accepted: seq<nat>, j: nat)
    requires Blocks(cbs, clean, done, use, accepted) && clean <= j < use
    ensures cbs[At(|cbs|, j)].skb == accepted[j]
  {
  }

  /** Cleaning the oldest block, once it is complete. */
  lemma CleanSafe(cbs: seq<Cb>, clean: nat, done: nat, use: nat, accepted: seq<nat>)
    requires Blocks(cbs, clean, done, use, accepted) && clean < done
    ensures var i := At(|cbs|, clean);
      Blocks(cbs[i := Cb(cbs[i].s, false, 0)], clean + 1, done, use, accepted)
  {
    var n, i := |cbs|, At(|cbs|, clean);
    var c := cbs[i := Cb(cbs[i].s, false, 0)];
    forall j | clean < j < clean + n ensures c[At(n, j)] == cbs[At(n, j)] { AtApart(n, clean, j); }
    AtWraps(n, clean);
  }

  lemma SameMarks(cbs: seq<Cb>, c: seq<Cb>, clean: nat, use: nat)
    requires |c| == |cbs| > 0 && forall i :: 0 <= i < |c| ==> c[i].s == cbs[i].s
    requires OnlyLast(cbs, clean, use)
    ensures OnlyLast(c, clean, use) && OnlyLast(c, clean + 1, use)
  {
  }

  lemma SameGuard(cbs: seq<Cb>, c: seq<Cb>, chip: Chip, limit: nat)
    requires |c| == |cbs| > 0 && (forall i :: 0 <= i < |c| ==> c[i].s == cbs[i].s) && Guarded(cbs, chip, limit)
    ensures Guarded(c, chip, limit)
  {
  }

  /** A command in the register: the start at the first block, later only resumes. */
  lemma SendSafe(cbs: seq<Cb>, chip: Chip, limit: nat, cmd: Cmd)
    requires |cbs| > 0 && Guarded(cbs, chip, limit) && limit > 0 && chip.pending == NoCmd
    requires if chip == Untouched then cmd == Start(0) else cmd == Resume && Started(chip)
    ensures Guarded(cbs, chip.(pending := cmd), limit)
  {
  }

  // ---- Buffers ----

  /** The buffers among the entries: 0 stands for a command without one. */
  function Skbs(s: seq<nat>): seq<nat> {
    if s == [] then [] else Skbs(s[..|s| - 1]) + if s[|s| - 1] == 0 then [] else [s[|s| - 1]]
  }

  lemma SkbsNext(accepted: seq<nat>, clean: nat)
    requires clean < |accepted|
    ensures Skbs(accepted[..clean + 1]) ==
      Skbs(accepted[..clean]) + if accepted[clean] == 0 then [] else [accepted[clean]]
  {
    assert accepted[..clean + 1][..clean] == accepted[..clean];
  }

  // ---- A device that takes no step ----

  ghost predicate Standing(gaps: nat -> seq<Event>) { forall k: nat :: gaps(k) == [] }

  lemma NoSteps(es: seq<Event>)
    ensures es == [] ==> forall m: Machine :: Iterate(DevStep, m, es) == m
  {
  }

  lemma StandStill(gaps: nat -> seq<Event>, k: nat)
    requires Standing(gaps)
    ensures gaps(k) == [] && gaps(0) == [] && gaps(1) == []
    ensures forall m: Machine :: Iterate(DevStep, m, gaps(k)) == m && Iterate(DevStep, m, gaps(0)) == m
  {
  }

  datatype Result = Queued | NoMemory | NoSpace

  class CommandRing {
    const count: nat
    const cbs: array<Cb>
    var cbToUse: nat
    var cbToSend: nat
    var cbToClean: nat
    var cbsAvail: nat
    var cuStart: bool
    var resetRequested: bool
    /** The device, which takes steps of its own between any two accesses of the driver. */
    var chip: Chip

    ghost var use: nat
    ghost var clean: nat
    ghost var accepted: seq<nat>
    ghost var released: seq<nat>

    /** The pointers and counters; cb_to_use is cb_to_clean advanced by count - cbs_avail. */
    ghost predicate Pointers()
      reads this, cbs
    {
      && cbs.Length == count >= 2
      && cbToUse == At(count, use) && cbToClean == At(count, clean) && cbToSend < count
      && clean <= use == |accepted| && cbsAvail == clean + count - use && released == Skbs(accepted[..clean])
      && (if cuStart then chip == Untouched && cbToSend == 0 && clean == 0 else Started(chip))
    }

    /** Between the driver's writes, with the first `limit` blocks open to the device. */
    ghost predicate During(limit: nat)
      reads this, cbs
    {
      Pointers() && limit <= use && Blocks(cbs[..], clean, chip.done, use, accepted) && Guarded(cbs[..], chip, limit)
    }

    /** With all queued blocks open to the device. */
    ghost predicate Ready()
      reads this, cbs
    {
      During(use) && OnlyLast(cbs[..], clean, use)
    }

    /** Between operations of the driver: the device is started with the first block. */
    ghost predicate Valid()
      reads this, cbs
    {
      Ready() && (cuStart ==> use == 0)
    }

    /** e100_alloc_cbs */
    constructor (count: nat)
      requires count >= 2
      ensures Valid() && this.count == count && cbsAvail == count && accepted == [] && released == [] && fresh(cbs)
      ensures chip == Untouched && cuStart && cbToSend == cbToUse == 0 && use == clean == 0
    {
      this.count := count;
      cbs := new Cb[count](_ => Cb(false, false, 0));
      cbToUse, cbToSend, cbToClean, cbsAvail := 0, 0, 0, count;
      cuStart, resetRequested, chip := true, false, Untouched;
      use, clean, accepted, released := 0, 0, [], [];
    }

    /** The device runs; of the first `last` queued blocks only the last carries the S bit. */
    method Device(es: seq<Event>, ghost limit: nat, ghost last: nat)
      requires During(limit) && OnlyLast(cbs[..], clean, last)
      modifies `chip, cbs
      ensures During(limit) && chip.done >= old(chip.done) && OnlyLast(cbs[..], clean, last)
      ensures Machine(cbs[..], chip) == Iterate(DevStep, Machine(old(cbs[..]), old(chip)), es)
    {
      hide Blocks, Guarded, OnlyLast, At, Skbs, Iterate, Next;
      ghost var before := cbs[..];
      DevRunSafe(cbs[..], chip, es, clean, use, accepted, limit);
      var m := Iterate(DevStep, Machine(cbs[..], chip), es);
      forall i | 0 <= i < cbs.Length { cbs[i] := m.cbs[i]; }
      chip := m.chip;
      assert cbs[..] == m.cbs;
      SameMarks(before, cbs[..], clean, last);
    }

    /** e100_exec_cmd: fails if the device has not taken the previous command in time; `es` is what
        it does until then. */
    method ExecCmd(es: seq<Event>) returns (ok: bool)
      requires Ready() && use > 0
      modifies `chip, `cuStart, cbs
      ensures Ready() && chip.done >= old(chip.done) && (old(cuStart) ==> ok)
      ensures var m := Iterate(DevStep, Machine(old(cbs[..]), old(chip)), es);
        && cbs[..] == m.cbs && (ok <==> m.chip.pending == NoCmd)
        && if ok then !cuStart && chip == m.chip.(pending := if old(cuStart) then Start(cbToSend) else Resume)
           else cuStart == old(cuStart) && chip == m.chip
    {
      hide Blocks, Guarded, OnlyLast, At, Skbs, Iterate, Next;
      Device(es, use, use);
      if chip.pending != NoCmd { return false; }
      SendSafe(cbs[..], chip, use, if cuStart then Start(cbToSend) else Resume);
      chip := chip.(pending := if cuStart then Start(cbToSend) else Resume);
      cuStart := false;
      return true;
    }

    function ToSend(): nat
      reads this
      requires cbToSend < count && cbToUse < count
    {
      if cbToSend <= cbToUse then cbToUse - cbToSend else cbToUse + count - cbToSend
    }

    /** e100_exec_cb; `gaps` is what the device does between the driver's accesses, and `issued` the
        number of commands it is given. The device is started with the first block. At return
        a command is pending, unless cb_to_send had fallen behind by exactly the whole ring; a reset
        is requested exactly when the ring became full and a command was refused. */
    method ExecCb(skb: nat, gaps: nat -> seq<Event>) returns (res: Result, ghost issued: nat)
      requires Valid()
      modifies this, cbs
      ensures Valid() && clean == old(clean) && released == old(released)
      ensures res == NoMemory <==> old(cbsAvail) == 0
      ensures res == NoSpace <==> old(cbsAvail) == 1
      ensures accepted == if res == NoMemory then old(accepted) else old(accepted) + [skb]
      ensures cbsAvail == if res == NoMemory then 0 else old(cbsAvail) - 1
      ensures cbToUse == if res == NoMemory then old(cbToUse) else Next(count, old(cbToUse))
      ensures cbToSend == At(count, old(cbToSend) + issued)
      ensures res == NoMemory ==> issued == 0 && chip == old(chip)
      ensures res != NoMemory ==> !cuStart && (cbToSend == cbToUse || chip.pending != NoCmd)
      ensures res != NoMemory && old(cbToSend) != cbToUse ==> chip.pending != NoCmd
      ensures res != NoMemory && old(cbToSend) == cbToUse ==> issued == 0
      ensures resetRequested == (old(resetRequested) || (res == NoSpace && cbToSend != cbToUse))
      ensures Standing(gaps) ==> chip == old(chip).(pending := chip.pending)
      ensures Standing(gaps) && res != NoMemory && (old(cbToSend) == cbToUse || old(chip).pending != NoCmd) ==>
        issued == 0 && chip == old(chip)
      ensures Standing(gaps) && res != NoMemory && old(cbToSend) != cbToUse && old(chip).pending == NoCmd ==>
        issued == 1
      ensures use == |accepted|
    {
      hide Blocks, Guarded, OnlyLast, At, Skbs, Iterate;
      issued := 0;
      AtSmall(count, cbToSend);
      if cbsAvail == 0 { return NoMemory, 0; }
      Take(skb);
      res := if cbsAvail == 0 then NoSpace else Queued;
      if Standing(gaps) { StandStill(gaps, 0); }
      Device(gaps(0), use - 1, use - 1);
      Mark(gaps(1));
      assert Standing(gaps) ==> chip == old(chip);
      issued := Send(gaps, res == NoSpace);
    }

    /** The loop that starts or resumes the device once per block, until a command is not taken. */
    method Send(gaps: nat -> seq<Event>, full: bool) returns (ghost issued: nat)
      requires Ready() && use > 0 && (cuStart ==> use == 1)
      modifies `chip, `cuStart, `cbToSend, `resetRequested, cbs
      ensures Valid() && !cuStart && cbToSend == At(count, old(cbToSend) + issued)
      ensures cbToSend == cbToUse || chip.pending != NoCmd
      ensures old(cbToSend) != cbToUse ==> chip.pending != NoCmd
      ensures old(cbToSend) == cbToUse ==> issued == 0 && chip == old(chip)
      ensures resetRequested == (old(resetRequested) || (full && cbToSend != cbToUse))
      ensures Standing(gaps) ==> chip == old(chip).(pending := chip.pending)
      ensures Standing(gaps) && old(chip).pending != NoCmd ==> issued == 0 && chip == old(chip)
      ensures Standing(gaps) && old(cbToSend) != cbToUse && old(chip).pending == NoCmd ==> issued == 1
    {
      hide Blocks, Guarded, OnlyLast, At, Skbs, Iterate, Next;
      AtSmall(count, cbToSend);
      if cuStart { AtSmall(count, 1); }
      issued := 0;
      var k := 2;
      while cbToSend != cbToUse
        invariant Ready() && cbToSend == At(count, old(cbToSend) + issued)
        invariant cuStart ==> use == 1 && cbToUse == 1
        invariant resetRequested == old(resetRequested)
        invariant issued == 0 ==> chip == old(chip) && cbToSend == old(cbToSend)
        invariant issued > 0 ==> chip.pending != NoCmd && old(cbToSend) != cbToUse
        invariant Standing(gaps) ==> chip == old(chip).(pending := chip.pending)
        invariant Standing(gaps) && issued > 0 ==> issued == 1 && old(chip).pending == NoCmd
        decreases ToSend()
      {
        if Standing(gaps) { StandStill(gaps, k); }
        var ok := SendOne(gaps(k));
        if !ok {
          if full { resetRequested := true; }
          break;
        }
        AtNext(count, old(cbToSend) + issued);
        k, issued := k + 1, issued + 1;
      }
    }

    /** One round: the command for the block at cb_to_send. */
    method SendOne(es: seq<Event>) returns (ok: bool)
      requires Ready() && use > 0 && cbToSend != cbToUse
      modifies `chip, `cuStart, `cbToSend, cbs
      ensures Ready() && chip.pending != NoCmd && (old(cuStart) ==> ok) && (ok ==> !cuStart)
      ensures !ok ==> cuStart == old(cuStart)
      ensures cbToSend == if ok then Next(count, old(cbToSend)) else old(cbToSend)
      ensures cbToSend < count && cbToUse < count && ToSend() == old(ToSend()) - if ok then 1 else 0
      ensures es == [] ==> (ok <==> old(chip).pending == NoCmd) && chip == old(chip).(pending := chip.pending)
      ensures es == [] && !ok ==> chip == old(chip)
    {
      hide Blocks, Guarded, OnlyLast, At, Skbs, Iterate;
      NoSteps(es);
      ok := ExecCmd(es);
      if ok { cbToSend := Next(count, cbToSend); }
    }

    /** Take the next free block. */
    method Take(skb: nat)
      requires Valid() && cbsAvail > 0
      modifies `cbToUse, `cbsAvail, `use, `accepted, cbs
      ensures use == old(use) + 1 && During(use - 1) && OnlyLast(cbs[..], clean, use - 1) && clean == old(clean)
      ensures released == old(released) && count > 0
      ensures accepted == old(accepted) + [skb] && cbsAvail == old(cbsAvail) - 1
      ensures cbToUse == Next(count, old(cbToUse))
    {
      hide Blocks, Guarded, OnlyLast, At, Skbs, Iterate, Next;
      TakeSafe(cbs[..], chip, clean, use, accepted, skb);
      AtNext(count, use);
      var i := cbToUse;
      assert accepted[..clean] == (accepted + [skb])[..clean];
      cbToUse := Next(count, cbToUse);
      cbsAvail := cbsAvail - 1;
      ghost var before := cbs[..];
      cbs[i] := Cb(false, cbs[i].complete, skb);
      assert cbs[..] == before[i := Cb(false, before[i].complete, skb)];
      use, accepted := use + 1, accepted + [skb];
    }

    /** The two ordered writes of the end marker, with the device running between and after. */
    method Mark(es: seq<Event>)
      requires use > 0 && During(use - 1) && OnlyLast(cbs[..], clean, use - 1)
      modifies `chip, cbs
      ensures Ready() && (es == [] ==> chip == old(chip))
    {
      hide Blocks, Guarded, OnlyLast, At, Skbs, Iterate, Next;
      assert es == [] ==> forall m: Machine :: Iterate(DevStep, m, es) == m by { NoSteps(es); }
      var i := Prev(count, cbToUse);
      AtPrev(count, use);
      MarkSafe(cbs[..], chip, clean, use - 1, accepted);
      ghost var before := cbs[..];
      cbs[i] := cbs[i].(s := true);
      assert cbs[..] == before[i := before[i].(s := true)];
      Device(es, use, use - 1);
      UnmarkSafe(cbs[..], chip, clean, use - 1, accepted);
      ghost var between := cbs[..];
      var j := Prev(count, i);
      cbs[j] := cbs[j].(s := false);
      assert cbs[..] == between[j := between[j].(s := false)];
    }

    /** e100_tx_clean: every block found complete is cleaned and its buffer released. */
    method TxClean(gaps: nat -> seq<Event>) returns (cleaned: bool)
      requires Valid()
      modifies this, cbs
      ensures Valid() && use == old(use) && accepted == old(accepted) && clean >= old(clean) && clean >= old(chip.done)
      ensures old(released) <= released && cleaned == (released != old(released)) && clean == chip.done
      ensures cbToSend == old(cbToSend) && cbToUse == old(cbToUse) && cbsAvail == clean + count - use
      ensures cuStart == old(cuStart) && resetRequested == old(resetRequested)
      ensures Standing(gaps) ==> chip == old(chip)
    {
      hide Blocks, Guarded, OnlyLast, At, Skbs, Iterate, Next;
      var k := 0;
      cleaned := false;
      CompleteIff(cbs[..], clean, chip.done, use, accepted);
      while cbs[cbToClean].complete
        invariant Valid() && use == old(use) && accepted == old(accepted) && clean >= old(clean)
        invariant chip.done >= old(chip.done) && (cbs[cbToClean].complete <==> clean < chip.done)
        invariant old(released) <= released && cleaned == (released != old(released))
        invariant cbToSend == old(cbToSend) && cbToUse == old(cbToUse)
        invariant cuStart == old(cuStart) && resetRequested == old(resetRequested)
        invariant clean <= chip.done && (Standing(gaps) ==> chip == old(chip))
        decreases use - clean
      {
        if Standing(gaps) { StandStill(gaps, k); }
        CompleteIff(cbs[..], clean, chip.done, use, accepted);
        if cbs[cbToClean].skb != 0 { cleaned := true; }
        CleanOne();
        Device(gaps(k), use, use);
        CompleteIff(cbs[..], clean, chip.done, use, accepted);
        k := k + 1;
      }
    }

    method CleanOne()
      requires Valid() && clean < chip.done
      modifies `cbToClean, `cbsAvail, `clean, `released, cbs
      ensures Valid() && clean == old(clean) + 1
      ensures released == old(released) + if accepted[old(clean)] == 0 then [] else [accepted[old(clean)]]
    {
      hide Blocks, Guarded, OnlyLast, At, Skbs, Iterate, Next;
      CompleteIff(cbs[..], clean, chip.done, use, accepted);
      CleanSafe(cbs[..], clean, chip.done, use, accepted);
      SkbsNext(accepted, clean);
      AtNext(count, clean);
      var i := cbToClean;
      ghost var before := cbs[..];
      if cbs[i].skb != 0 { released := released + [cbs[i].skb]; }
      cbs[i] := Cb(cbs[i].s, false, 0);
      assert cbs[..] == before[i := Cb(before[i].s, false, 0)];
      SameMarks(before, cbs[..], clean, use);
      SameGuard(before, cbs[..], chip, use);
      cbsAvail := cbsAvail + 1;
      cbToClean := Next(count, cbToClean);
      clean := clean + 1;
    }

    /** e100_clean_cbs on a stopped device: whatever is still queued is released. */
    method CleanCbs()
      requires Valid()
      modifies `cbToClean, `cbsAvail, `clean, `released
      ensures released == Skbs(accepted) && cbsAvail == count && cbToClean == cbToUse
    {
      hide Blocks, Guarded, OnlyLast, Skbs, Next, At;
      ghost var first, blocks := clean, cbs[..];
      while cbsAvail != count
        invariant first <= clean <= use == |accepted| && cbsAvail == clean + count - use
        invariant released == Skbs(accepted[..clean]) && cbToClean == At(count, clean) && cbs[..] == blocks
        decreases use - clean
      {
        SkbsNext(accepted, clean);
        AtNext(count, clean);
        QueuedSkb(blocks, first, chip.done, use, accepted, clean);
        var skb := cbs[cbToClean].skb;
        if skb != 0 { released := released + [skb]; }
        cbToClean := Next(count, cbToClean);
        cbsAvail := cbsAvail + 1;
        clean := clean + 1;
      }
      assert accepted[..clean] == accepted;
    }
  }

  /** A suspended device without a command does nothing whatever is queued. */
  lemma {:induction false} StalledStays(m: Machine, es: seq<Event>)
    requires m.chip.dev.Suspended? && m.chip.pending == NoCmd
    ensures Iterate(DevStep, m, es) == m
    decreases |es|
  {
    if es != [] { StalledStays(m, es[1..]); }
  }

  /** What the device fetches: the S bit of a queued block tells whether it is the last. */
  lemma FetchStep(m: Machine, clean: nat, use: nat)
    requires |m.cbs| > 0 && OnlyLast(m.cbs, clean, use) && m.chip.dev.Running? && clean <= m.chip.done < use
    ensures DevStep(m, Fetch) == m.(chip := m.chip.(dev := Fetched(m.chip.done == use - 1)))
  {
  }

  lemma OneStep(m: Machine, e: Event)
    ensures Iterate(DevStep, m, [e]) == DevStep(m, e)
  {
    hide DevStep;
  }

  /** The device as it is left when it finishes a block; a command that comes too early is ignored. */
  lemma FinishStep(m: Machine)
    requires |m.cbs| > 0 && m.chip.dev.Fetched?
    ensures DevStep(m, Finish(false)).chip ==
      m.chip.(dev := if m.chip.dev.last then Suspended else Running, done := m.chip.done + 1)
  {
  }

  lemma AcceptStep(m: Machine)
    requires |m.cbs| > 0
    ensures m.chip.pending.Start? && m.chip.dev.Idle? ==>
      DevStep(m, Accept) == m.(chip := m.chip.(dev := Running, pending := NoCmd))
    ensures m.chip.pending.Resume? && m.chip.dev.Fetched? ==>
      DevStep(m, Accept) == m.(chip := m.chip.(pending := NoCmd))
  {
  }

  lemma PendingIs(cbs: seq<Cb>, chip: Chip, limit: nat)
    requires |cbs| > 0 && Guarded(cbs, chip, limit) && chip.pending != NoCmd
    ensures chip.pending.Start? <==> chip.dev.Idle?
  {
  }

  /** The running device fetches and finishes the block it is at. */
  method RunBlock(r: CommandRing)
    requires r.Ready() && r.chip.dev.Running? && r.clean <= r.chip.done < r.use
    modifies r`chip, r.cbs
    ensures r.Ready()
    ensures r.chip == old(r.chip).(
      dev := if old(r.chip).done == r.use - 1 then Suspended else Running, done := old(r.chip).done + 1)
  {
    hide Blocks, Guarded, OnlyLast, At, Skbs, Iterate, Next, DevStep;
    FetchBlock(r);
    FinishBlock(r);
  }

  method FetchBlock(r: CommandRing)
    requires r.Ready() && r.chip.dev.Running? && r.clean <= r.chip.done < r.use
    modifies r`chip, r.cbs
    ensures r.Ready() && r.chip == old(r.chip).(dev := Fetched(r.chip.done == r.use - 1))
  {
    hide Blocks, Guarded, OnlyLast, At, Skbs, Iterate, Next, DevStep;
    var m := Machine(r.cbs[..], r.chip);
    OneStep(m, Fetch);
    FetchStep(m, r.clean, r.use);
    r.Device([Fetch], r.use, r.use);
  }

  method FinishBlock(r: CommandRing)
    requires r.Ready() && r.chip.dev.Fetched?
    modifies r`chip, r.cbs
    ensures r.Ready()
    ensures r.chip == old(r.chip).(
      dev := if old(r.chip).dev.last then Suspended else Running, done := old(r.chip).done + 1)
  {
    hide Blocks, Guarded, OnlyLast, At, Skbs, Iterate, Next, DevStep;
    var m := Machine(r.cbs[..], r.chip);
    OneStep(m, Finish(false));
    FinishStep(m);
    r.Device([Finish(false)], r.use, r.use);
  }

  method TakeCommand(r: CommandRing)
    requires r.Ready() && r.chip.pending != NoCmd && (r.chip.dev.Idle? || r.chip.dev.Fetched?)
    modifies r`chip, r.cbs
    ensures r.Ready()
    ensures r.chip == old(r.chip).(
      dev := if old(r.chip).dev.Idle? then Running else old(r.chip).dev, pending := NoCmd)
  {
    hide Blocks, Guarded, OnlyLast, At, Skbs, Iterate, Next, DevStep;
    var m := Machine(r.cbs[..], r.chip);
    OneStep(m, Accept);
    PendingIs(r.cbs[..], r.chip, r.use);
    AcceptStep(m);
    r.Device([Accept], r.use, r.use);
  }

  /** A ring of two blocks and how far it is. */
  ghost predicate Stage(r: CommandRing, clean: nat, use: nat, toSend: nat, chip: Chip)
    reads r, r.cbs
  {
    && r.Valid() && r.count == 2 && r.clean == clean && r.use == use && r.cbToSend == toSend
    && r.cbToUse == At(2, use) && r.cbsAvail == clean + 2 - use && r.chip == chip && !r.cuStart
  }

  /** Another block is taken while the device stands still; a command is accepted if none is pending
      and cb_to_send is not at the block after it. */
  method TakeBlock(r: CommandRing, skb: nat)
    requires r.Valid() && r.count == 2 && !r.cuStart && r.cbsAvail > 0 && r.use > 0
    modifies r, r.cbs
    ensures var chip := old(r.chip); var meets := old(r.cbToSend) == At(2, old(r.use) + 1);
      var go := !meets && chip.pending == NoCmd;
      Stage(r, old(r.clean), old(r.use) + 1, if go then Next(2, old(r.cbToSend)) else old(r.cbToSend),
            if go then chip.(pending := r.chip.pending) else chip)
      && (go ==> r.chip.pending != NoCmd)
  {
    hide Blocks, Guarded, OnlyLast, At, Skbs, Iterate, DevStep;
    AtNext(2, r.use);
    AtNext(2, r.cbToSend);
    AtSmall(2, r.cbToSend);
    var res, issued := r.ExecCb(skb, _ => []);
  }

  /** The first block is taken and the device started. */
  method FirstBlock() returns (r: CommandRing)
    ensures fresh(r) && fresh(r.cbs) && Stage(r, 0, 1, 1, Chip(Running, 0, NoCmd))
  {
    hide Blocks, Guarded, OnlyLast, Skbs, Iterate, DevStep;
    r := new CommandRing(2);
    AtTwo();
    var res, issued := r.ExecCb(7, _ => []);
    TakeCommand(r);
  }

  /** The device finishes the block it is at, and everything finished is cleaned. */
  method RunAndClean(r: CommandRing)
    requires Stage(r, r.clean, r.use, r.cbToSend, r.chip) && r.chip.dev.Running? && r.chip.done == r.clean < r.use
    modifies r, r.cbs
    ensures Stage(r, old(r.clean) + 1, old(r.use), old(r.cbToSend), old(r.chip).(
      dev := if old(r.chip).done == r.use - 1 then Suspended else Running, done := old(r.chip).done + 1))
  {
    hide Blocks, Guarded, OnlyLast, At, Skbs, Iterate, DevStep;
    RunBlock(r);
    var cleaned := r.TxClean(_ => []);
  }

  /** The resume for the third block is refused. */
  method ResumeRefused() returns (r: CommandRing)
    ensures fresh(r) && fresh(r.cbs) && r.chip.pending != NoCmd && Stage(r, 2, 3, 0, Chip(Running, 2, r.chip.pending))
  {
    hide Blocks, Guarded, OnlyLast, At, Skbs, Iterate, DevStep;
    AtTwo();
    r := FirstBlock();
    TakeBlock(r, 8);
    RunAndClean(r);
    TakeBlock(r, 9);
    RunAndClean(r);
  }

  /** A resume is refused while the device runs on, and cb_to_send falls behind by the whole ring of
      two blocks. Then the next block is taken without a command, and the device stays suspended
      before it until another block is taken. */
  method MissedCommand() returns (r: CommandRing)
    ensures r.Valid() && r.chip.done < r.use && r.chip.dev.Suspended? && r.chip.pending == NoCmd
    ensures forall es :: Iterate(DevStep, Machine(r.cbs[..], r.chip), es).chip == r.chip
  {
    hide Blocks, Guarded, OnlyLast, At, Skbs, Iterate, DevStep;
    AtTwo();
    r := ResumeRefused();
    FetchBlock(r);
    TakeCommand(r);
    FinishBlock(r);
    TakeBlock(r, 10);
    forall es ensures Iterate(DevStep, Machine(r.cbs[..], r.chip), es).chip == r.chip {
      StalledStays(Machine(r.cbs[..], r.chip), es);
    }
  }

  lemma AtTwo()
    ensures At(2, 0) == 0 && At(2, 1) == 1 && At(2, 2) == 0 && At(2, 3) == 1 && At(2, 4) == 0
  {
  }
}
