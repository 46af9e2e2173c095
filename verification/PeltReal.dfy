/** The load sum over exact reals: the three-segment formula against time passing one unit
    at a time, each full period of 1024 units decaying the whole sum by y. */
module PeltReal {

  /** y decays a period; max is the limit of the sum of 1024 * y^n. */
  datatype Decay = Decay(y: real, max: real)

  predicate DecayOk(g: Decay) { 0.0 < g.y < 1.0 && g.max * (1.0 - g.y) == 1024.0 }

  datatype State = State(sum: real, contrib: nat)

  function Power(y: real, n: nat): real { if n == 0 then 1.0 else Power(y, n - 1) * y }

  // ---- Reference: one unit of time after another ----

  function Tick(g: Decay, w: real, s: State): State {
    if s.contrib + 1 < 1024 then State(s.sum + w, s.contrib + 1) else State((s.sum + w) * g.y, 0)
  }

  function Ticks(g: Decay, w: real, s: State, n: nat): State {
    if n == 0 then s else Tick(g, w, Ticks(g, w, s, n - 1))
  }

  // ---- accumulate_sum ----

  function Segments(g: Decay, periods: nat, d1: nat, d3: nat): real {
    d1 as real * Power(g.y, periods) + (g.max - g.max * Power(g.y, periods) - 1024.0) + d3 as real
  }

  /** The sum after full periods: u decayed, and the contribution of the time since. */
  function Total(g: Decay, w: real, u: real, periods: nat, d1: nat, d3: nat): real {
    u * Power(g.y, periods) + w * Segments(g, periods, d1, d3)
  }

  function Accumulate(g: Decay, w: real, s: State, delta: nat): (r: State)
    requires s.contrib < 1024
    ensures r.contrib < 1024
  {
    var total := s.contrib + delta;
    var periods := total / 1024;
    if periods == 0 then State(s.sum + w * delta as real, total)
    else State(Total(g, w, s.sum, periods, 1024 - s.contrib, total % 1024), total % 1024)
  }

  lemma DecaySegments(g: Decay, periods: nat, d1: nat)
    requires DecayOk(g)
    ensures (Segments(g, periods, d1, 1023) + 1.0) * g.y == Segments(g, periods + 1, d1, 0)
  {
    var p, y, l, d := Power(g.y, periods), g.y, g.max, d1 as real;
    assert l * y == l - 1024.0;
    assert (d * p + (l - l * p - 1024.0) + 1023.0 + 1.0) * y == d * (p * y) + l * y - l * (p * y);
  }

  lemma DecaySum(g: Decay, w: real, u: real, p: real, x: real)
    ensures (u * p + w * x + w) * g.y == u * (p * g.y) + w * ((x + 1.0) * g.y)
  {
  }

  lemma OneMore(w: real, x: real)
    ensures w * (x + 1.0) == w * x + w
  {
  }

  lemma MoreTotal(g: Decay, w: real, u: real, periods: nat, d1: nat, d3: nat)
    ensures Total(g, w, u, periods, d1, d3 + 1) == Total(g, w, u, periods, d1, d3) + w
  {
    OneMore(w, Segments(g, periods, d1, d3));
  }

  /** The formula with the division carried out. */
  lemma AccumulateAt(g: Decay, w: real, s: State, delta: nat, periods: nat, rest: nat)
    requires s.contrib < 1024 && s.contrib + delta == periods * 1024 + rest && rest < 1024
    ensures Accumulate(g, w, s, delta) ==
      if periods == 0 then State(s.sum + w * delta as real, rest)
      else State(Total(g, w, s.sum, periods, 1024 - s.contrib, rest), rest)
  {
    hide Total;
  }

  /** One more unit of the first period. */
  lemma FirstTick(g: Decay, w: real, s: State, delta: nat)
    requires s.contrib + delta + 1 < 1024
    ensures Accumulate(g, w, s, delta + 1) == Tick(g, w, Accumulate(g, w, s, delta))
  {
    hide Accumulate;
    AccumulateAt(g, w, s, delta, 0, s.contrib + delta);
    AccumulateAt(g, w, s, delta + 1, 0, s.contrib + delta + 1);
    OneMore(w, delta as real);
    assert (delta + 1) as real == delta as real + 1.0;
  }

  /** One more unit within a later period. */
  lemma LaterTick(g: Decay, w: real, s: State, delta: nat, periods: nat, rest: nat)
    requires s.contrib < 1024 && s.contrib + delta == periods * 1024 + rest && periods > 0 && rest < 1023
    ensures Accumulate(g, w, s, delta + 1) == Tick(g, w, Accumulate(g, w, s, delta))
  {
    hide Total, Accumulate;
    AccumulateAt(g, w, s, delta, periods, rest);
    AccumulateAt(g, w, s, delta + 1, periods, rest + 1);
    MoreTotal(g, w, s.sum, periods, 1024 - s.contrib, rest);
  }

  /** Both parts decay at the end of a period. */
  lemma DecayTotal(g: Decay, w: real, u: real, periods: nat, d1: nat)
    requires DecayOk(g)
    ensures (Total(g, w, u, periods, d1, 1023) + w) * g.y == Total(g, w, u, periods + 1, d1, 0)
  {
    DecaySegments(g, periods, d1);
    DecaySum(g, w, u, Power(g.y, periods), Segments(g, periods, d1, 1023));
    hide Segments, DecayOk;
    assert Power(g.y, periods + 1) == Power(g.y, periods) * g.y;
  }

  /** The formula also holds for the rest of the first period. */
  lemma WholePeriod(g: Decay, w: real, u: real, d1: nat, delta: nat)
    requires d1 + 1023 == delta + 1024
    ensures Total(g, w, u, 0, d1, 1023) == u + w * delta as real
  {
    assert Segments(g, 0, d1, 1023) == delta as real;
  }

  /** The tick that ends a period. */
  lemma LastTick(g: Decay, w: real, s: State, delta: nat, periods: nat)
    requires DecayOk(g) && s.contrib < 1024 && s.contrib + delta == periods * 1024 + 1023
    ensures Accumulate(g, w, s, delta + 1) == Tick(g, w, Accumulate(g, w, s, delta))
  {
    hide Total, Accumulate, DecayOk;
    var d1 := 1024 - s.contrib;
    AccumulateAt(g, w, s, delta, periods, 1023);
    if periods == 0 { WholePeriod(g, w, s.sum, d1, delta); }
    assert Accumulate(g, w, s, delta).sum == Total(g, w, s.sum, periods, d1, 1023);
    AccumulateAt(g, w, s, delta + 1, periods + 1, 0);
    DecayTotal(g, w, s.sum, periods, d1);
  }

  /** One more unit of time is one more tick of the formula. */
  lemma AccumulateTick(g: Decay, w: real, s: State, delta: nat)
    requires DecayOk(g) && s.contrib < 1024
    ensures Accumulate(g, w, s, delta + 1) == Tick(g, w, Accumulate(g, w, s, delta))
  {
    hide Accumulate, Tick, DecayOk;
    var periods, rest := (s.contrib + delta) / 1024, (s.contrib + delta) % 1024;
    if rest == 1023 {
      LastTick(g, w, s, delta, periods);
    } else if periods == 0 {
      FirstTick(g, w, s, delta);
    } else {
      LaterTick(g, w, s, delta, periods, rest);
    }
  }

  /** The three-segment formula is the iterated sum. */
  lemma {:induction false} AccumulateIsTicks(g: Decay, w: real, s: State, delta: nat)
    requires DecayOk(g) && s.contrib < 1024
    ensures Accumulate(g, w, s, delta) == Ticks(g, w, s, delta)
  {
    hide Accumulate, Tick;
    if delta == 0 {
      AccumulateNothing(g, w, s);
    } else {
      AccumulateIsTicks(g, w, s, delta - 1);
      AccumulateTick(g, w, s, delta - 1);
    }
  }

  lemma AccumulateNothing(g: Decay, w: real, s: State)
    requires s.contrib < 1024
    ensures Accumulate(g, w, s, 0) == s
  {
  }

  lemma {:induction false} TicksSplit(g: Decay, w: real, s: State, d1: nat, d2: nat)
    ensures Ticks(g, w, s, d1 + d2) == Ticks(g, w, Ticks(g, w, s, d1), d2)
  {
    if d2 > 0 { TicksSplit(g, w, s, d1, d2 - 1); }
  }

  /** Updating over d1 and then over d2 leaves the same state as one update over both. */
  lemma AccumulateSplit(g: Decay, w: real, s: State, d1: nat, d2: nat)
    requires DecayOk(g) && s.contrib < 1024
    ensures Accumulate(g, w, Accumulate(g, w, s, d1), d2) == Accumulate(g, w, s, d1 + d2)
  {
    AccumulateIsTicks(g, w, s, d1);
    AccumulateIsTicks(g, w, Accumulate(g, w, s, d1), d2);
    AccumulateIsTicks(g, w, s, d1 + d2);
    TicksSplit(g, w, s, d1, d2);
  }

  /** Permanent activity never takes the sum of a unit weight beyond max - 1024 + contrib. */
  lemma {:induction false} SumLimit(g: Decay, w: real, s: State, delta: nat)
    requires DecayOk(g) && 0.0 <= w && s.contrib < 1024 && s.sum <= w * (g.max - 1024.0 + s.contrib as real)
    ensures var r := Accumulate(g, w, s, delta);
      r.contrib < 1024 && r.sum <= w * (g.max - 1024.0 + r.contrib as real)
  {
    hide Accumulate, Tick;
    if delta == 0 {
      AccumulateNothing(g, w, s);
    } else {
      SumLimit(g, w, s, delta - 1);
      AccumulateTick(g, w, s, delta - 1);
      TickLimit(g, w, Accumulate(g, w, s, delta - 1));
    }
  }

  lemma TickLimit(g: Decay, w: real, s: State)
    requires DecayOk(g) && 0.0 <= w && s.contrib < 1024 && s.sum <= w * (g.max - 1024.0 + s.contrib as real)
    ensures var r := Tick(g, w, s); r.contrib < 1024 && r.sum <= w * (g.max - 1024.0 + r.contrib as real)
  {
    if s.contrib + 1 == 1024 {
      assert w * (g.max - 1024.0 + 1023.0) + w == w * g.max;
      assert (w * g.max - (s.sum + w)) * g.y >= 0.0;
      assert w * g.max * g.y == w * (g.max * g.y);
    } else {
      assert w * (g.max - 1024.0 + s.contrib as real) + w == w * (g.max - 1024.0 + (s.contrib + 1) as real);
    }
  }
}
