/** The ring of receive buffers. Buffers are counted from the start: those below `clean` have been
    passed on or dropped, those below `done` filled by the device, those below `use` linked in. */
module ReceiveRings {
  import opened RingSlots

  /** A slot: its buffer (0 for none), end-of-list mark, whether its link leads to the next slot's
      buffer, completion flag, and whether the frame in it is good. */
  datatype Rx = Rx(skb: nat, el: bool, linked: bool, complete: bool, good: bool)

  /** The receive unit: stopped, between buffers, or filling one fetched with its mark set or not. */
  datatype Ru = Stopped | Receiving | Filling(last: bool)

  /** `rnr`: the interrupt telling that the unit ran out of buffers has not been acknowledged. */
  datatype Chip = Chip(ru: Ru, done: nat, rnr: bool)

  datatype Event = Pick | Fill(good: bool)

  /** The ring as the device sees it, and its own state. */
  datatype Machine = Machine(rxs: seq<Rx>, chip: Chip)

  function DevStep(m: Machine, e: Event): Machine {
    var Machine(rxs, chip) := m;
    if rxs == [] then m
    else
      var i := At(|rxs|, chip.done);
      match e
      case Pick => if chip.ru.Receiving? then m.(chip := chip.(ru := Filling(rxs[i].el))) else m
      case Fill(good) =>
        if !chip.ru.Filling? then m
        else Machine(
          rxs[i := rxs[i].(complete := true, good := good)],
          Chip(if chip.ru.last then Stopped else Receiving, chip.done + 1, chip.rnr || chip.ru.last))
  }

  // ---- The invariant ----

  /** The buffers form one arc from `clean` to `use`; the filled ones come first. */
  ghost predicate Arc(rxs: seq<Rx>, clean: nat, done: nat, use: nat, log: seq<nat>) {
    && |rxs| >= 2 && clean <= done <= use <= clean + |rxs| && |log| == use
    && (forall j :: clean <= j < use ==>
          var x := rxs[At(|rxs|, j)]; x.skb == log[j] != 0 && x.complete == (j < done))
    && (forall j :: use <= j < clean + |rxs| ==> rxs[At(|rxs|, j)].skb == 0)
  }

  /** Of the buffers up to `limit` only the last is marked, and the others are linked. */
  ghost predicate Marked(rxs: seq<Rx>, clean: nat, limit: nat)
    requires |rxs| > 0
  {
    forall j :: clean <= j < limit ==>
      var x := rxs[At(|rxs|, j)]; (x.el <==> j == limit - 1) && (j < limit - 1 ==> x.linked)
  }

  /** The device keeps to the buffers below `limit`. */
  ghost predicate Within(chip: Chip, limit: nat) {
    && chip.done <= limit
    && (chip.ru.Receiving? ==> chip.done < limit)
    && (chip.ru.Filling? ==> chip.done < limit && (!chip.ru.last ==> chip.done + 1 < limit))
    && (chip.rnr ==> chip.ru.Stopped?)
  }

  /** Marks and links are the driver's. */
  predicate SameMarks(rxs: seq<Rx>, c: seq<Rx>) {
    |c| == |rxs| && forall i :: 0 <= i < |rxs| ==> c[i].linked == rxs[i].linked && c[i].el == rxs[i].el
  }

  lemma DevStepSafe(
    rxs: seq<Rx>, chip: Chip, e: Event, clean: nat, use: nat, log: seq<nat>, limit: nat)
    requires Arc(rxs, clean, chip.done, use, log) && limit <= use && Marked(rxs, clean, limit) && Within(chip, limit)
    ensures var Machine(c, d) := DevStep(Machine(rxs, chip), e);
      && Arc(c, clean, d.done, use, log) && Marked(c, clean, limit) && Within(d, limit) && chip.done <= d.done
      && (chip.ru.Stopped? ==> d == chip && c == rxs) && SameMarks(rxs, c)
  {
    if e.Fill? && chip.ru.Filling? { FillSafe(rxs, chip.done, clean, use, log, e.good); }
  }

  lemma FillSafe(rxs: seq<Rx>, done: nat, clean: nat, use: nat, log: seq<nat>, good: bool)
    requires Arc(rxs, clean, done, use, log) && done < use
    ensures var i := At(|rxs|, done); Arc(rxs[i := rxs[i].(complete := true, good := good)], clean, done + 1, use, log)
  {
    var n := |rxs|;
    forall j | clean <= j < clean + n && j != done ensures At(n, j) != At(n, done) {
      if j < done { AtApart(n, j, done); } else { AtApart(n, done, j); }
    }
  }

  lemma {:induction false} DevRunSafe(
    rxs: seq<Rx>, chip: Chip, es: seq<Event>, clean: nat, use: nat, log: seq<nat>, limit: nat)
    requires Arc(rxs, clean, chip.done, use, log) && limit <= use && Marked(rxs, clean, limit) && Within(chip, limit)
    ensures var Machine(c, d) := Iterate(DevStep, Machine(rxs, chip), es);
      && Arc(c, clean, d.done, use, log) && Marked(c, clean, limit) && Within(d, limit) && chip.done <= d.done
      && (chip.ru.Stopped? ==> d == chip && c == rxs) && SameMarks(rxs, c)
    decreases |es|
  {
    hide Arc, Marked, Within;
    if es != [] {
      DevStepSafe(rxs, chip, es[0], clean, use, log, limit);
      var Machine(c, d) := DevStep(Machine(rxs, chip), es[0]);
      DevRunSafe(c, d, es[1..], clean, use, log, limit);
    }
  }

  // ---- The driver's writes ----

  /** A fresh buffer in slot `use`, marked but not yet linked in. */
  lemma FreshSafe(rxs: seq<Rx>, clean: nat, done: nat, use: nat, log: seq<nat>, skb: nat)
    requires Arc(rxs, clean, done, use, log) && use < clean + |rxs| && skb != 0 && Marked(rxs, clean, use)
    ensures var c := rxs[At(|rxs|, use) := Rx(skb, true, false, false, false)];
      Arc(c, clean, done, use + 1, log + [skb]) && Marked(c, clean, use) && c[At(|rxs|, use)].el
      && (clean < use <==> c[Prev(|rxs|, At(|rxs|, use))].skb != 0)
  {
    var n := |rxs|;
    forall j | clean <= j < clean + n && j != use ensures At(n, j) != At(n, use) {
      if j < use { AtApart(n, j, use); } else { AtApart(n, use, j); }
    }
    AtWraps(n, use);
    AtPrev(n, use + n);
    AtApart(n, use, use + n - 1);
    if clean < use { AtWraps(n, use - 1); }
  }

  /** First write: the link of the previous buffer. */
  lemma LinkSafe(rxs: seq<Rx>, clean: nat, done: nat, use: nat, log: seq<nat>)
    requires Arc(rxs, clean, done, use + 1, log) && Marked(rxs, clean, use) && clean < use && rxs[At(|rxs|, use)].el
    ensures var i := Prev(|rxs|, At(|rxs|, use)); var c := rxs[i := rxs[i].(linked := true)];
      i == At(|rxs|, use - 1) && Arc(c, clean, done, use + 1, log) && Marked(c, clean, use)
      && c[At(|rxs|, use)].el && c[i].linked
  {
    AtPrev(|rxs|, use);
  }

  /** Second write: its mark is cleared, which opens the new buffer to the device. */
  lemma OpenSafe(rxs: seq<Rx>, clean: nat, done: nat, use: nat, log: seq<nat>)
    requires Arc(rxs, clean, done, use + 1, log) && Marked(rxs, clean, use) && clean < use
    requires rxs[At(|rxs|, use)].el && rxs[At(|rxs|, use - 1)].linked
    ensures var i := Prev(|rxs|, At(|rxs|, use)); var c := rxs[i := rxs[i].(el := false)];
      Arc(c, clean, done, use + 1, log) && Marked(c, clean, use + 1)
  {
    var n := |rxs|;
    AtPrev(n, use);
    AtApart(n, use - 1, use);
    forall j | clean <= j < use - 1 ensures At(n, j) != At(n, use - 1) { AtApart(n, j, use - 1); }
  }

  /** The only buffer of a ring needs no link. */
  lemma SingleSafe(rxs: seq<Rx>, clean: nat, use: nat)
    requires |rxs| > 0 && clean == use && rxs[At(|rxs|, use)].el
    ensures Marked(rxs, clean, use + 1)
  {
  }

  /** What the driver finds at the oldest buffer: complete iff the device is past it, and marked
      as well only if the device has stopped. */
  lemma OldestIs(rxs: seq<Rx>, chip: Chip, clean: nat, use: nat, log: seq<nat>)
    requires Arc(rxs, clean, chip.done, use, log) && Marked(rxs, clean, use) && Within(chip, use) && clean < use
    ensures var x := rxs[At(|rxs|, clean)];
      x.skb == log[clean] && (x.complete <==> clean < chip.done) && (x.complete && x.el ==> chip.ru.Stopped?)
  {
  }

  /** Taking out the oldest buffer once it is complete. */
  lemma TakeOutSafe(rxs: seq<Rx>, clean: nat, done: nat, use: nat, log: seq<nat>)
    requires Arc(rxs, clean, done, use, log) && Marked(rxs, clean, use) && clean < done
    ensures var i := At(|rxs|, clean); var c := rxs[i := rxs[i].(skb := 0)];
      Arc(c, clean + 1, done, use, log) && Marked(c, clean + 1, use)
  {
    var i := At(|rxs|, clean);
    hide Arc, Marked;
    ArcShrinks(rxs, clean, done, use, log);
    MarkedShrinks(rxs, rxs[i := rxs[i].(skb := 0)], clean, use);
  }

  lemma MarkedShrinks(rxs: seq<Rx>, c: seq<Rx>, clean: nat, use: nat)
    requires |c| == |rxs| > 0 && Marked(rxs, clean, use)
    requires forall i :: 0 <= i < |c| ==> c[i].el == rxs[i].el && c[i].linked == rxs[i].linked
    ensures Marked(c, clean + 1, use)
  {
  }

  lemma ArcShrinks(rxs: seq<Rx>, clean: nat, done: nat, use: nat, log: seq<nat>)
    requires Arc(rxs, clean, done, use, log) && clean < done
    ensures var i := At(|rxs|, clean); Arc(rxs[i := rxs[i].(skb := 0)], clean + 1, done, use, log)
  {
    var n, i := |rxs|, At(|rxs|, clean);
    var c := rxs[i := rxs[i].(skb := 0)];
    forall j | clean < j < clean + n ensures c[At(n, j)] == rxs[At(n, j)] { AtApart(n, clean, j); }
    AtWraps(n, clean);
  }

  /** Which slots hold a buffer, seen through the two pointers. */
  lemma SlotHolds(rxs: seq<Rx>, clean: nat, done: nat, use: nat, log: seq<nat>)
    requires Arc(rxs, clean, done, use, log)
    ensures rxs[At(|rxs|, clean)].skb != 0 <==> clean < use
    ensures rxs[At(|rxs|, use)].skb != 0 <==> use == clean + |rxs|
  {
    AtWraps(|rxs|, clean);
  }

  datatype RuRunning = Uninitialized | Suspended | Running

  /** The first n allocations. */
  function Buffers(alloc: nat -> nat, n: nat): seq<nat> {
    if n == 0 then [] else Buffers(alloc, n - 1) + [alloc(n - 1)]
  }

  lemma BuffersNext(alloc: nat -> nat, n: nat)
    ensures Buffers(alloc, 0) == [] && Buffers(alloc, n + 1) == Buffers(alloc, n) + [alloc(n)]
  {
  }

  /** How many of these are good. */
  function Goods(verdicts: seq<bool>): nat {
    if verdicts == [] then 0
    else Goods(verdicts[..|verdicts| - 1]) + if verdicts[|verdicts| - 1] then 1 else 0
  }

  lemma NoGoods(verdicts: seq<bool>)
    ensures Goods(verdicts[|verdicts|..]) == 0
  {
  }

  lemma GoodsNext(verdicts: seq<bool>, k: nat)
    requires k < |verdicts|
    ensures var n := |verdicts| - 1;
      Goods(verdicts[k..]) == Goods(verdicts[..n][k..]) + if verdicts[n] then 1 else 0
  {
    assert verdicts[k..][..|verdicts| - 1 - k] == verdicts[..|verdicts| - 1][k..];
  }

  class ReceiveRing {
    const count: nat
    const rxs: array<Rx>
    var rxToUse: nat
    var rxToClean: nat
    var ruRunning: RuRunning
    /** The device, which takes steps of its own between any two accesses of the driver. */
    var chip: Chip

    ghost var use: nat
    ghost var clean: nat
    ghost var log: seq<nat>
    ghost var passed: seq<nat>
    /** Whether the frames in the buffers passed on were good. */
    ghost var verdicts: seq<bool>

    /** Buffers are passed on once each, in the order in which they were linked in; and when the
        driver thinks the receiver suspended, it has stopped. */
    ghost predicate Pointers()
      reads this, rxs
    {
      && rxs.Length == count >= 2 && rxToClean == At(count, clean)
      && clean <= use == |log| && passed == log[..clean] && |verdicts| == clean
      && (ruRunning != Running ==> chip.ru.Stopped?)
    }

    ghost predicate During(limit: nat)
      reads this, rxs
    {
      && Pointers() && limit <= use && Arc(rxs[..], clean, chip.done, use, log)
      && Marked(rxs[..], clean, limit) && Within(chip, limit)
    }

    ghost predicate Valid()
      reads this, rxs
    {
      During(use) && rxToUse == At(count, use)
    }

    constructor (count: nat)
      requires count >= 2
      ensures Valid() && this.count == count && use == 0
      ensures ruRunning == Uninitialized && chip == Chip(Stopped, 0, false)
      ensures fresh(rxs)
    {
      this.count := count;
      rxs := new Rx[count](_ => Rx(0, false, false, false, false));
      rxToUse, rxToClean, ruRunning, chip := 0, 0, Uninitialized, Chip(Stopped, 0, false);
      use, clean, log, passed, verdicts := 0, 0, [], [], [];
    }

    /** The device runs within the first `limit` buffers. */
    method Device(es: seq<Event>, ghost limit: nat)
      requires During(limit)
      modifies `chip, rxs
      ensures During(limit) && chip.done >= old(chip.done) && (old(chip.ru.Stopped?) ==> chip == old(chip))
      ensures forall i :: 0 <= i < rxs.Length ==> rxs[i].linked == old(rxs[i].linked) && rxs[i].el == old(rxs[i].el)
    {
      hide Arc, Marked, Within, At, Iterate;
      DevRunSafe(rxs[..], chip, es, clean, use, log, limit);
      var m := Iterate(DevStep, Machine(rxs[..], chip), es);
      forall i | 0 <= i < rxs.Length { rxs[i] := m.rxs[i]; }
      chip := m.chip;
      assert rxs[..] == m.rxs;
    }

    /** e100_rx_alloc_skb for the slot after the last buffer; `skb` is 0 if there is no memory.
        The device runs after each write. */
    method AllocSkb(i: nat, skb: nat, gaps: nat -> seq<Event>) returns (ok: bool)
      requires During(use) && i == At(count, use) && use < clean + count
      modifies `chip, `use, `log, rxs
      ensures ok <==> skb != 0
      ensures During(use) && use == old(use) + (if ok then 1 else 0) && log == old(log) + (if ok then [skb] else [])
      ensures chip.done >= old(chip.done) && (old(chip.ru.Stopped?) ==> chip == old(chip))
    {
      hide Arc, Marked, Within, At, Prev;
      if skb == 0 { return false; }
      FreshSafe(rxs[..], clean, chip.done, use, log, skb);
      ghost var before := rxs[..];
      rxs[i] := Rx(skb, true, false, false, false);
      assert rxs[..] == before[i := Rx(skb, true, false, false, false)];
      assert log[..clean] == (log + [skb])[..clean];
      use, log := use + 1, log + [skb];
      var prev := Prev(count, i);
      if rxs[prev].skb != 0 {
        Open(i, prev, gaps);
      } else {
        SingleSafe(rxs[..], clean, use - 1);
        WithinMore(chip, use - 1);
      }
      return true;
    }

    /** The two ordered writes that link the buffer in slot i behind the one in slot prev. */
    method Open(i: nat, prev: nat, gaps: nat -> seq<Event>)
      requires use > 0 && During(use - 1) && clean < use - 1 && i == At(count, use - 1) && prev == Prev(count, i)
      requires rxs[i].el
      modifies `chip, rxs
      ensures During(use) && chip.done >= old(chip.done) && (old(chip.ru.Stopped?) ==> chip == old(chip))
    {
      hide Arc, Marked, Within, At, Prev, Iterate;
      Device(gaps(0), use - 1);
      LinkSafe(rxs[..], clean, chip.done, use - 1, log);
      ghost var before := rxs[..];
      rxs[prev] := rxs[prev].(linked := true);
      assert rxs[..] == before[prev := before[prev].(linked := true)];
      Device(gaps(1), use - 1);
      OpenSafe(rxs[..], clean, chip.done, use - 1, log);
      WithinMore(chip, use - 1);
      ghost var between := rxs[..];
      rxs[prev] := rxs[prev].(el := false);
      assert rxs[..] == between[prev := between[prev].(el := false)];
      Device(gaps(2), use);
    }

    /** e100_rx_alloc_list */
    method AllocList(alloc: nat -> nat) returns (ok: bool)
      requires Valid() && use == 0 && ruRunning == Uninitialized && chip == Chip(Stopped, 0, false)
      modifies this, rxs
      ensures ok ==> Valid() && clean == 0 && use == count && ruRunning == Suspended && chip == old(chip)
      ensures ok <==> forall k: nat :: k < count ==> alloc(k) != 0
      ensures ok ==> forall k: nat :: k < count ==> log[k] == alloc(k)
    {
      hide Arc, Marked, Within, At, Iterate;
      AtSmall(count, 0);
      for i := 0 to count
        invariant During(use) && i == use && clean == 0 && chip == old(chip) && ruRunning == Uninitialized
        invariant i < count ==> i == At(count, use)
        invariant |log| == i && forall k: nat :: k < i ==> log[k] == alloc(k) != 0
      {
        if i + 1 < count { AtSmall(count, i + 1); }
        var done := AllocSkb(i, alloc(i), _ => []);
        if !done { return false; }
      }
      AtWraps(count, 0);
      AtSmall(count, 0);
      rxToUse, rxToClean := 0, 0;
      ruRunning := Suspended;
      return true;
    }

    /** e100_start_receiver: only at the oldest buffer, and with every completed one passed on. */
    method StartReceiver(i: nat, accepted: bool)
      requires Valid() && i == At(count, clean) && (ruRunning == Suspended ==> chip.done == clean && !chip.rnr)
      modifies `chip, `ruRunning
      ensures Valid() && chip.done == old(chip.done) && chip.rnr == old(chip.rnr)
      ensures chip.ru != old(chip.ru) ==> chip.ru == Receiving && old(ruRunning) == Suspended && clean < use
      ensures var go := old(ruRunning) == Suspended && clean < use;
        && ruRunning == (if go then Running else old(ruRunning))
        && chip.ru == (if go && accepted then Receiving else old(chip.ru))
    {
      hide Arc, Marked, At;
      if ruRunning != Suspended { return; }
      SlotHolds(rxs[..], clean, chip.done, use, log);
      if rxs[i].skb != 0 {
        if accepted { chip := chip.(ru := Receiving); }
        ruRunning := Running;
      }
    }

    /** The receive part of e100_intr: an interrupt for want of buffers means the device stopped. */
    method Intr()
      requires Valid()
      modifies `chip, `ruRunning
      ensures Valid() && chip == old(chip).(rnr := false)
      ensures ruRunning == if old(chip.rnr) then Suspended else old(ruRunning)
    {
      hide Arc, Marked, At;
      var rnr := chip.rnr;
      chip := chip.(rnr := false);
      if rnr { ruRunning := Suspended; }
    }

    /** e100_rx_indicate on the oldest buffer, when it is complete. */
    method Indicate() returns (good: bool)
      requires Valid() && clean < use && clean < chip.done
      modifies `ruRunning, `clean, `passed, `verdicts, `rxToClean, rxs
      ensures Valid() && clean == old(clean) + 1 && passed == old(passed) + [log[old(clean)]]
      ensures ruRunning == old(ruRunning) || (ruRunning == Suspended && chip.ru.Stopped?)
      ensures ruRunning == if old(rxs[At(count, clean)].el) then Suspended else old(ruRunning)
      ensures good == old(rxs[At(count, clean)].good) && verdicts == old(verdicts) + [good]
    {
      hide Arc, Marked, Within, At, Next;
      OldestIs(rxs[..], chip, clean, use, log);
      TakeOutSafe(rxs[..], clean, chip.done, use, log);
      SlotHolds(rxs[..], clean, chip.done, use, log);
      AtNext(count, clean);
      var i := rxToClean;
      ghost var before := rxs[..];
      if rxs[i].el { ruRunning := Suspended; }
      good := rxs[i].good;
      passed, verdicts := passed + [rxs[i].skb], verdicts + [good];
      rxs[i] := rxs[i].(skb := 0);
      assert rxs[..] == before[i := before[i].(skb := 0)];
      DoneInArc(before, clean, chip.done, use, log);
      clean := clean + 1;
      rxToClean := Next(count, i);
      assert log[..clean] == log[..clean - 1] + [log[clean - 1]];
    }

    /** The first loop of e100_rx_clean. Unless the quota ends it, no completed buffer is left. */
    method IndicateAll(workToDo: nat, gaps: nat -> seq<Event>) returns (workDone: nat, quota: bool)
      requires Valid()
      modifies `chip, `ruRunning, `clean, `passed, `verdicts, `rxToClean, rxs
      ensures Valid() && old(passed) <= passed && chip.done >= old(chip.done)
      ensures workDone <= workToDo && (!quota ==> clean == chip.done) && clean <= use
      ensures quota <==> workDone == workToDo && clean < use
      ensures old(verdicts) <= verdicts && workDone == Goods(verdicts[|old(verdicts)|..])
      ensures old(ruRunning) == Suspended ==> ruRunning == Suspended && chip == old(chip)
    {
      hide Arc, Marked, Within, At, Next, Goods;
      workDone, quota := 0, false;
      NoGoods(verdicts);
      var k := 0;
      SlotHolds(rxs[..], clean, chip.done, use, log);
      DoneInArc(rxs[..], clean, chip.done, use, log);
      while rxs[rxToClean].skb != 0
        invariant Valid() && old(passed) <= passed && workDone <= workToDo && chip.done >= old(chip.done)
        invariant old(ruRunning) == Suspended ==> ruRunning == Suspended && chip == old(chip)
        invariant (rxs[rxToClean].skb != 0 <==> clean < use) && clean <= chip.done <= use
        invariant old(verdicts) <= verdicts && workDone == Goods(verdicts[|old(verdicts)|..])
        decreases use - clean
      {
        if workDone >= workToDo { return workDone, true; }
        OldestIs(rxs[..], chip, clean, use, log);
        if !rxs[rxToClean].complete { return workDone, false; }
        var good := Indicate();
        GoodsNext(verdicts, |old(verdicts)|);
        if good { workDone := workDone + 1; }
        Device(gaps(k), use);
        k := k + 1;
        SlotHolds(rxs[..], clean, chip.done, use, log);
        DoneInArc(rxs[..], clean, chip.done, use, log);
      }
    }

    /** One round of the second loop: the next slot is filled, unless memory runs out. */
    method Add(skb: nat, gaps: nat -> seq<Event>) returns (ok: bool)
      requires Valid() && use < clean + count
      modifies `chip, `use, `log, `rxToUse, rxs
      ensures Valid() && (ok <==> skb != 0) && (old(chip.ru.Stopped?) ==> chip == old(chip))
      ensures use == old(use) + (if ok then 1 else 0) && log == old(log) + (if ok then [skb] else [])
    {
      hide Arc, Marked, Within, At, Next;
      AtNext(count, use);
      ok := AllocSkb(rxToUse, skb, gaps);
      if ok { rxToUse := Next(count, rxToUse); }
    }

    /** The second loop of e100_rx_clean: buffers are added until the ring is full or memory runs out. */
    method Refill(alloc: nat -> nat, gaps: (nat, nat) -> seq<Event>)
      requires Valid()
      modifies `chip, `use, `log, `rxToUse, rxs
      ensures Valid() && old(log) <= log && (old(chip.ru.Stopped?) ==> chip == old(chip))
      ensures use == clean + count || alloc(use - old(use)) == 0
      ensures log == old(log) + Buffers(alloc, use - old(use)) && 0 !in Buffers(alloc, use - old(use))
      ensures alloc(0) != 0 ==> clean < use
    {
      hide Arc, Marked, Within, At, Next, Buffers;
      var k := 0;
      BuffersNext(alloc, 0);
      SlotHolds(rxs[..], clean, chip.done, use, log);
      DoneInArc(rxs[..], clean, chip.done, use, log);
      while rxs[rxToUse].skb == 0
        invariant Valid() && old(log) <= log && (old(chip.ru.Stopped?) ==> chip == old(chip))
        invariant (rxs[rxToUse].skb != 0 <==> use == clean + count) && use <= clean + count
        invariant k == use - old(use) && (k > 0 ==> clean < use)
        invariant log == old(log) + Buffers(alloc, k) && 0 !in Buffers(alloc, k)
        decreases clean + count - use
      {
        var ok := Add(alloc(k), (j: nat) => gaps(k, j));
        if !ok { break; }
        BuffersNext(alloc, k);
        k := k + 1;
        SlotHolds(rxs[..], clean, chip.done, use, log);
        DoneInArc(rxs[..], clean, chip.done, use, log);
      }
    }

    /** e100_rx_clean; `indicated` is the work before the restart. The receiver is restarted exactly if it
        was suspended on entry and the quota did not cut the cleaning short, and then at the oldest
        buffer with nothing completed left behind. */
    method RxClean(workToDo: nat, alloc: nat -> nat, gaps: (nat, nat) -> seq<Event>, accepted: bool)
      returns (workDone: nat, restarted: bool, ghost indicated: nat)
      requires Valid()
      modifies this, rxs
      ensures Valid() && old(passed) <= passed && old(log) <= log
      ensures workDone == indicated + (if restarted then 1 else 0) && indicated <= workToDo
      ensures old(verdicts) <= verdicts && indicated == Goods(verdicts[|old(verdicts)|..])
      ensures restarted <==> old(ruRunning) == Suspended && (indicated < workToDo || clean == old(use))
      ensures restarted ==> !chip.rnr && ruRunning == if clean < use then Running else Suspended
      ensures restarted ==> chip.ru == if clean < use && accepted then Receiving else Stopped
      ensures restarted ==> old(ruRunning) == Suspended && chip.done == clean && workDone <= workToDo + 1
      ensures !restarted ==> workDone <= workToDo && (old(ruRunning) == Suspended ==> chip == old(chip))
      ensures old(chip.done) <= clean || workDone >= workToDo
      ensures alloc(0) != 0 ==> clean < use
    {
      hide Arc, Marked, Within, At, Next;
      var restart := ruRunning == Suspended;
      var done, quota := IndicateAll(workToDo, (k: nat) => gaps(0, k));
      if quota { restart := false; }
      workDone, indicated := done, done;
      var rxToStart := rxToClean;
      Refill(alloc, (k: nat, j: nat) => gaps(k + 1, j));
      restarted := restart;
      if restart {
        WithinAcked(chip, use);
        chip := chip.(rnr := false);
        StartReceiver(rxToStart, accepted);
        workDone := workDone + 1;
      }
    }
  }

  lemma DoneInArc(rxs: seq<Rx>, clean: nat, done: nat, use: nat, log: seq<nat>)
    requires Arc(rxs, clean, done, use, log)
    ensures clean <= done <= use <= clean + |rxs|
  {
  }

  lemma WithinAcked(chip: Chip, limit: nat)
    requires Within(chip, limit)
    ensures Within(chip.(rnr := false), limit)
  {
  }

  lemma WithinMore(chip: Chip, limit: nat)
    requires Within(chip, limit)
    ensures Within(chip, limit + 1)
  {
  }
}
