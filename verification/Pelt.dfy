/** Per-entity load tracking: a decaying sum over 1024-unit periods, kept with a 32-entry
    table of decay factors, shifts and floors. */
module Pelt {
  import opened Wrap64
  import opened Arithmetic

  const LOAD_AVG_PERIOD: nat := 32
  const TWO32: nat := 0x1_0000_0000
  const SCHED_CAPACITY_SCALE: nat := 1024

  /** runnable_avg_yN_inv and LOAD_AVG_MAX, which a header outside this model defines. */
  datatype Table = Table(inv: seq<nat>, max: nat)

  function DecayLoad(t: Table, val: nat, n: nat): nat
    requires |t.inv| == LOAD_AVG_PERIOD
  {
    if n > LOAD_AVG_PERIOD * 63 then 0
    else Floor(Floor(val, Pow2(n / LOAD_AVG_PERIOD)) * t.inv[n % LOAD_AVG_PERIOD], TWO32)
  }

  /** The factors decrease, and one period takes at least 1024 off the maximum. */
  ghost predicate TableOk(t: Table) {
    && |t.inv| == LOAD_AVG_PERIOD
    && (forall j :: 0 <= j < |t.inv| ==> t.inv[j] < TWO32)
    && (forall i, j :: 0 <= i < j < |t.inv| ==> t.inv[j] <= t.inv[i])
    && t.max >= 2048
    && DecayLoad(t, t.max, 1) <= t.max - 1024
  }

  // ---- Decay as a real factor with bounded rounding ----

  function Beta(t: Table, n: nat): real
    requires |t.inv| == LOAD_AVG_PERIOD
  {
    if n > LOAD_AVG_PERIOD * 63 then 0.0
    else t.inv[n % LOAD_AVG_PERIOD] as real / (TWO32 as real * Pow2(n / LOAD_AVG_PERIOD) as real)
  }

  lemma FactorAbove(val: nat, k: nat, x: nat, v: nat, d: nat)
    requires d * TWO32 <= v * x && v * k <= val
    ensures d * (TWO32 * k) <= val * x
  {
    MulMono(d * TWO32, v * x, k);
    MulMono(v * k, val, x);
    assert v * x * k == v * k * x;
  }

  lemma FactorBelow(val: nat, k: nat, x: nat, v: nat, d: nat)
    requires v * x <= d * TWO32 + TWO32 && val <= v * k + k && x <= TWO32
    ensures val * x <= d * (TWO32 * k) + 2 * (TWO32 * k)
  {
    MulMono(val, v * k + k, x);
    assert (v * k + k) * x == v * x * k + x * k;
    MulMono(v * x, d * TWO32 + TWO32, k);
    MulMono(x, TWO32, k);
  }

  lemma FloorFactor(val: nat, k: nat, x: nat)
    requires k > 0 && x < TWO32
    ensures var d := Floor(Floor(val, k) * x, TWO32);
      d * (TWO32 * k) <= val * x <= d * (TWO32 * k) + 2 * (TWO32 * k)
  {
    hide Floor;
    var v := Floor(val, k);
    var d := Floor(v * x, TWO32);
    FloorBounds(val, k);
    FloorBounds(v * x, TWO32);
    FactorAbove(val, k, x, v, d);
    FactorBelow(val, k, x, v, d);
  }

  lemma Quotient(v: real, d: real, x: real, m: real)
    requires m > 0.0 && x >= 0.0 && d * m <= v * x <= d * m + 2.0 * m
    ensures 0.0 <= x / m && d <= v * (x / m) <= d + 2.0
  {
    var b := x / m;
    assert b * m == x;
    Assoc(v, b, m);
    DivideBounds(d, v * b, m);
    assert (d + 2.0) * m == d * m + 2.0 * m;
    DivideBounds(v * b, d + 2.0, m);
    DivideBounds(0.0, b, m);
  }

  lemma RealFactor(val: nat, d: nat, x: nat, m: nat)
    requires m > 0 && d * m <= val * x <= d * m + 2 * m
    ensures var b := x as real / m as real;
      0.0 <= b && d as real <= val as real * b <= d as real + 2.0
  {
    CastProduct(d, m);
    CastProduct(val, x);
    assert (d * m + 2 * m) as real == (d * m) as real + 2.0 * m as real;
    Quotient(val as real, d as real, x as real, m as real);
  }

  /** decay_load multiplies by Beta and rounds down by at most 2. */
  lemma DecayFactor(t: Table, val: nat, n: nat)
    requires TableOk(t)
    ensures 0.0 <= Beta(t, n)
    ensures DecayLoad(t, val, n) as real <= val as real * Beta(t, n) <= DecayLoad(t, val, n) as real + 2.0
  {
    hide Floor, Pow2;
    if n <= LOAD_AVG_PERIOD * 63 {
      var k, x := Pow2(n / LOAD_AVG_PERIOD), t.inv[n % LOAD_AVG_PERIOD];
      FloorFactor(val, k, x);
      RealFactor(val, DecayLoad(t, val, n), x, TWO32 * k);
    }
  }

  lemma BetaMono(x: nat, y: nat, m: nat, k: nat)
    requires x <= y && m > 0 && k > 0
    ensures x as real / (m as real * k as real) <= y as real / m as real
  {
    var rx, ry, rm, rk := x as real, y as real, m as real, k as real;
    var a, b := rx / (rm * rk), ry / rm;
    assert a * (rm * rk) == rx;
    assert b * rm == ry;
    Assoc(b, rm, rk);
    ScaleReal(1.0, rk, ry);
    DivideBounds(a, b, rm * rk);
  }

  lemma Assoc(a: real, b: real, c: real)
    ensures a * (b * c) == a * b * c
  {
  }

  lemma BetaHalf(x: nat, k: nat)
    requires x < TWO32 && k >= 2
    ensures x as real / (TWO32 as real * k as real) <= 0.5
  {
    var mk := TWO32 as real * k as real;
    var a := x as real / mk;
    assert a * mk == x as real;
    assert mk >= TWO32 as real * 2.0;
    DivideBounds(a, 0.5, mk);
  }

  /** A full period decays at least as much as the first table step or a halving. */
  lemma BetaAtMost(t: Table, n: nat)
    requires TableOk(t) && n >= 1
    ensures Beta(t, n) <= Beta(t, 1) || Beta(t, n) <= 0.5
    ensures n >= LOAD_AVG_PERIOD ==> Beta(t, n) <= 0.5
  {
    hide Floor, DecayLoad;
    if n < LOAD_AVG_PERIOD {
      assert Pow2(0) == 1;
      BetaMono(t.inv[n], t.inv[1], TWO32, 1);
    } else if n <= LOAD_AVG_PERIOD * 63 {
      assert Pow2(n / LOAD_AVG_PERIOD) == 2 * Pow2(n / LOAD_AVG_PERIOD - 1);
      BetaHalf(t.inv[n % LOAD_AVG_PERIOD], Pow2(n / LOAD_AVG_PERIOD));
    }
  }

  /** Any full period takes at least 1022 off the maximum. */
  lemma BetaBound(t: Table, n: nat)
    requires TableOk(t) && n >= 1
    ensures Beta(t, n) * t.max as real <= t.max as real - 1022.0
  {
    hide Floor, Beta, Pow2;
    DecayFactor(t, t.max, 1);
    BetaAtMost(t, n);
    ScaleReal(Beta(t, n), if Beta(t, n) <= 0.5 then 0.5 else Beta(t, 1), t.max as real);
  }

  // ---- The three segments ----

  /** 1024 units per full period between the first and the last: c2 of the source. */
  function FullPeriods(t: Table, periods: nat): int
    requires |t.inv| == LOAD_AVG_PERIOD
  {
    t.max - DecayLoad(t, t.max, periods) - 1024
  }

  /** c2 never underflows. */
  lemma FullPeriodsNonNegative(t: Table, periods: nat)
    requires TableOk(t) && periods >= 1
    ensures 0 <= FullPeriods(t, periods) < t.max
  {
    hide Floor, Pow2, Beta;
    if periods < LOAD_AVG_PERIOD {
      DecayMono(t, periods);
    } else {
      DecayFactor(t, t.max, periods);
      BetaAtMost(t, periods);
      HalfDecay(t.max, Beta(t, periods), DecayLoad(t, t.max, periods));
    }
  }

  lemma HalfReal(x: real, b: real)
    requires x >= 2048.0 && b <= 0.5
    ensures x * b <= x - 1024.0
  {
    ScaleReal(b, 0.5, x);
  }

  lemma HalfDecay(max: nat, b: real, d: nat)
    requires max >= 2048 && b <= 0.5 && d as real <= max as real * b
    ensures d <= max - 1024
  {
    HalfReal(max as real, b);
    assert max as real - 1024.0 == (max - 1024) as real;
  }

  lemma DecayMono(t: Table, n: nat)
    requires TableOk(t) && 1 <= n < LOAD_AVG_PERIOD
    ensures DecayLoad(t, t.max, n) <= DecayLoad(t, t.max, 1)
  {
    hide Floor;
    var v := Floor(t.max, 1);
    assert Pow2(0) == 1;
    MulMono(t.inv[n], t.inv[1], v);
    FloorMono(v * t.inv[n], v * t.inv[1], TWO32);
  }

  function Segments(t: Table, periods: nat, d1: nat, d3: nat): nat
    requires TableOk(t) && periods >= 1
  {
    FullPeriodsNonNegative(t, periods);
    DecayLoad(t, d1, periods) + FullPeriods(t, periods) + d3
  }

  function CapScale(v: nat, s: nat): nat { v * s / SCHED_CAPACITY_SCALE }

  lemma CapScaleBounds(v: nat, s: nat)
    ensures var c := SCHED_CAPACITY_SCALE * CapScale(v, s); c <= v * s < c + SCHED_CAPACITY_SCALE
    ensures s == SCHED_CAPACITY_SCALE ==> CapScale(v, s) == v
  {
  }

  /** `queue`: the average of a run queue, which also keeps a runnable sum. */
  datatype Avg = Avg(queue: bool, last: U64, contrib: nat, loadSum: nat, runnableSum: nat, utilSum: nat,
                     loadAvg: nat, runnableAvg: nat, utilAvg: nat)

  /** What happened since the last update: weight (0 if off the queue), running, and the
      frequency and capacity of the cpu. */
  datatype Activity = Activity(weight: nat, running: bool, freq: nat, cpu: nat)

  function Grown(d: nat, v: nat, c: nat): nat { d + v * c }

  function Faded(t: Table, sum: nat, periods: nat): nat
    requires |t.inv| == LOAD_AVG_PERIOD
  {
    if periods == 0 then sum else DecayLoad(t, sum, periods)
  }

  /** The contribution of the time since the last update, before scaling. */
  function Contribution(t: Table, delta: nat, contrib: nat): nat
    requires TableOk(t) && contrib < 1024
  {
    var total := delta + contrib;
    if total < 1024 then delta else Segments(t, total / 1024, 1024 - contrib, total % 1024)
  }

  function Accumulate(t: Table, delta: nat, sa: Avg, a: Activity): Avg
    requires TableOk(t) && sa.contrib < 1024
  {
    var total := delta + sa.contrib;
    var periods := total / 1024;
    var c := CapScale(Contribution(t, delta, sa.contrib), a.freq);
    sa.(contrib := total % 1024,
        loadSum := Grown(Faded(t, sa.loadSum, periods), a.weight, c),
        runnableSum := if sa.queue then Grown(Faded(t, sa.runnableSum, periods), a.weight, c) else sa.runnableSum,
        utilSum := Grown(Faded(t, sa.utilSum, periods), if a.running then a.cpu else 0, c))
  }

  /** The averages over the time the sum stands for. */
  function Averaged(t: Table, s: Avg): Avg
    requires t.max >= 2048
  {
    var divider := t.max - 1024 + s.contrib;
    s.(loadAvg := Floor(s.loadSum, divider),
       runnableAvg := if s.queue then Floor(s.runnableSum, divider) else s.runnableAvg,
       utilAvg := Floor(s.utilSum, divider))
  }

  /** Time is counted in units of 1024 ns; stamps and phases move by whole units. */
  function Units(d: nat): nat { d / 1024 }

  function Stamp(last: U64, n: nat): U64 { (last + n * 1024) % TWO64 }

  function Phase(contrib: nat, n: nat): (p: nat)
    ensures p < 1024
  {
    (contrib + n) % 1024
  }

  function Update(t: Table, sa: Avg, now: U64, a: Activity): (r: Avg)
    requires TableOk(t) && sa.contrib < 1024
    ensures r.contrib < 1024
  {
    if Diff(now, sa.last) < 0 then sa.(last := now)
    else
      var delta := Units(Diff(now, sa.last));
      if delta == 0 then sa
      else
        var s := Accumulate(t, delta, sa.(last := Stamp(sa.last, delta)), a);
        if delta + sa.contrib < 1024 then s else Averaged(t, s)
  }

  // ---- The sum stays bounded ----

  /** sum <= w * (max - 1024 + contrib) plus a fixed slack of 2 * w * max / 1022. */
  predicate Bounded(t: Table, w: nat, sum: nat, contrib: nat) {
    t.max >= 1024 && 1022 * sum <= 1022 * (w * (t.max - 1024 + contrib)) + 2 * (w * t.max)
  }

  lemma SlackDecay(b: real, l: real, w: real, q: real)
    requires 0.0 <= w && Times(b, l) <= l - 1022.0 && 1022.0 * q == 2.0 * Times(w, l)
    ensures Times(b, q) <= q - 2.0 * w
  {
    ScaleReal(b * l, l - 1022.0, 2.0 * w);
    assert b * l * (2.0 * w) == b * (2.0 * (w * l)) == 1022.0 * (b * q);
    assert (l - 1022.0) * (2.0 * w) == 2.0 * (w * l) - 2044.0 * w;
  }

  lemma OldPart(b: real, w: real, q: real, x: real, s: real)
    requires 0.0 <= b && s <= Times(w, x) + q
    ensures Times(b, s) <= Times(b, Times(w, x)) + Times(b, q)
  {
    ScaleReal(s, w * x + q, b);
    assert (w * x + q) * b == b * (w * x) + b * q;
  }

  lemma NewPart(b: real, w: real, x: real, x': real, c: real)
    requires 0.0 <= w && c <= x' + 2.0 - Times(b, x)
    ensures Times(w, c) <= Times(w, x') + 2.0 * w - Times(b, Times(w, x))
  {
    ScaleReal(c, x' + 2.0 - b * x, w);
    assert (x' + 2.0 - b * x) * w == w * x' + 2.0 * w - b * x * w;
    assert b * x * w == b * (w * x);
  }

  /** One crossing of period boundaries over the reals: b decays, l is the maximum, q is the
      slack, s and s' the sums, c the new contribution, x and x' the divisors before and after. */
  lemma StepReal(b: real, l: real, w: real, q: real, x: real, x': real, s: real, s': real, c: real)
    requires 0.0 <= b && 0.0 <= w && Times(b, l) <= l - 1022.0 && 1022.0 * q == 2.0 * Times(w, l)
    requires s <= Times(w, x) + q && s' <= Times(b, s) + Times(w, c) && c <= x' + 2.0 - Times(b, x)
    ensures s' <= Times(w, x') + q
  {
    hide Times;
    SlackDecay(b, l, w, q);
    OldPart(b, w, q, x, s);
    NewPart(b, w, x, x', c);
  }

  function Slack(t: Table, w: nat): real { 2.0 * Times(w as real, t.max as real) / 1022.0 }

  lemma BoundedReal(t: Table, w: nat, sum: nat, contrib: nat)
    requires t.max >= 1024
    ensures Bounded(t, w, sum, contrib) <==>
      sum as real <= Times(w as real, (t.max - 1024 + contrib) as real) + Slack(t, w)
  {
    var x, y := w * (t.max - 1024 + contrib), w * t.max;
    assert x as real == w as real * (t.max - 1024 + contrib) as real;
    assert y as real == w as real * t.max as real;
    assert (1022 * sum) as real == 1022.0 * sum as real;
    assert (1022 * x + 2 * y) as real == 1022.0 * x as real + 2.0 * y as real;
  }

  lemma SegmentsReal(t: Table, periods: nat, pc: nat, pc': nat)
    requires TableOk(t) && periods >= 1 && pc <= 1024
    ensures Segments(t, periods, 1024 - pc, pc') as real <=
      (t.max - 1024 + pc') as real + 2.0 - Times(Beta(t, periods), (t.max - 1024 + pc) as real)
  {
    hide Floor, Beta, DecayLoad;
    DecayFactor(t, 1024 - pc, periods);
    DecayFactor(t, t.max, periods);
    FullPeriodsNonNegative(t, periods);
    var d1, d, b := DecayLoad(t, 1024 - pc, periods), DecayLoad(t, t.max, periods), Beta(t, periods);
    Distribute(b, t.max as real, (1024 - pc) as real, (t.max - 1024 + pc) as real);
    assert Segments(t, periods, 1024 - pc, pc') == d1 + (t.max - d - 1024) + pc';
    assert (d1 + (t.max - d - 1024) + pc') as real == d1 as real + t.max as real - d as real - 1024.0 + pc' as real;
  }

  lemma Distribute(b: real, l: real, d: real, x: real)
    requires x == l - d
    ensures Times(b, x) == l * b - d * b
  {
  }

  /** What a sum holds for a weight of at most w at frequencies of at most f. */
  predicate Held(t: Table, w: nat, f: nat, sum: nat, contrib: nat) {
    Bounded(t, w * f, SCHED_CAPACITY_SCALE * sum, contrib)
  }

  lemma HeldFull(t: Table, w: nat, sum: nat, contrib: nat)
    ensures Held(t, w, SCHED_CAPACITY_SCALE, sum, contrib) <==> Bounded(t, w, sum, contrib)
  {
    var d := t.max - 1024 + contrib;
    assert w * SCHED_CAPACITY_SCALE * d == SCHED_CAPACITY_SCALE * (w * d);
    assert w * SCHED_CAPACITY_SCALE * t.max == SCHED_CAPACITY_SCALE * (w * t.max);
  }

  /** The new sum when the time crosses a period boundary. */
  lemma CrossingHeld(t: Table, w: nat, f: nat, sum: nat, pc: nat, periods: nat, pc': nat, v: nat, c: nat)
    requires TableOk(t) && pc < 1024 && periods >= 1 && v <= w
    requires SCHED_CAPACITY_SCALE * c <= Segments(t, periods, 1024 - pc, pc') * f
    requires Held(t, w, f, sum, pc)
    ensures Held(t, w, f, Grown(DecayLoad(t, sum, periods), v, c), pc')
  {
    assert |t.inv| == LOAD_AVG_PERIOD && t.max >= 2048;
    hide Floor, Beta, DecayLoad, Segments, Bounded, Times, TableOk;
    Decays(t, sum, periods);
    SegmentsReal(t, periods, pc, pc');
    var d, seg := DecayLoad(t, sum, periods), Segments(t, periods, 1024 - pc, pc');
    ScaledProduct(v, w, c, seg, f);
    ScaledTimes(Beta(t, periods), d, sum);
    Crossing(t, w * f, SCHED_CAPACITY_SCALE * sum, pc, Beta(t, periods), pc', SCHED_CAPACITY_SCALE * (v * c), seg,
             SCHED_CAPACITY_SCALE * d);
    assert SCHED_CAPACITY_SCALE * d + SCHED_CAPACITY_SCALE * (v * c) == SCHED_CAPACITY_SCALE * (d + v * c);
  }

  lemma ScaledProduct(v: nat, w: nat, c: nat, seg: nat, f: nat)
    requires v <= w && SCHED_CAPACITY_SCALE * c <= seg * f
    ensures SCHED_CAPACITY_SCALE * (v * c) <= w * f * seg
  {
    MulMono(v, w, c);
    MulMono(SCHED_CAPACITY_SCALE * c, seg * f, w);
    assert seg * f * w == w * f * seg && SCHED_CAPACITY_SCALE * c * w == SCHED_CAPACITY_SCALE * (w * c);
  }

  lemma ScaledTimes(b: real, d: nat, sum: nat)
    requires d as real <= Times(b, sum as real)
    ensures (SCHED_CAPACITY_SCALE * d) as real <= Times(b, (SCHED_CAPACITY_SCALE * sum) as real)
  {
    assert (SCHED_CAPACITY_SCALE * d) as real == 1024.0 * d as real;
    assert (SCHED_CAPACITY_SCALE * sum) as real == 1024.0 * sum as real;
    assert b * (1024.0 * sum as real) == 1024.0 * (b * sum as real);
  }

  lemma Decays(t: Table, val: nat, n: nat)
    requires TableOk(t) && n >= 1
    ensures 0.0 <= Beta(t, n) && Times(Beta(t, n), t.max as real) <= t.max as real - 1022.0
    ensures DecayLoad(t, val, n) as real <= Times(Beta(t, n), val as real)
  {
    hide Floor, Beta, DecayLoad;
    DecayFactor(t, val, n);
    BetaBound(t, n);
  }

  lemma Crossing(t: Table, w: nat, sum: nat, pc: nat, b: real, pc': nat, e: nat, seg: nat, d: nat)
    requires t.max >= 1024 && Bounded(t, w, sum, pc) && e <= w * seg
    requires 0.0 <= b && Times(b, t.max as real) <= t.max as real - 1022.0 && d as real <= Times(b, sum as real)
    requires seg as real <= (t.max - 1024 + pc') as real + 2.0 - Times(b, (t.max - 1024 + pc) as real)
    ensures Bounded(t, w, d + e, pc')
  {
    hide Bounded, Slack, Times;
    BoundedReal(t, w, sum, pc);
    BoundedReal(t, w, d + e, pc');
    ProductReal(w, seg, e);
    SlackIs(t, w);
    assert (d + e) as real == d as real + e as real;
    StepReal(b, t.max as real, w as real, Slack(t, w), (t.max - 1024 + pc) as real, (t.max - 1024 + pc') as real,
             sum as real, (d + e) as real, seg as real);
  }

  lemma ProductReal(w: nat, seg: nat, e: nat)
    requires e <= w * seg
    ensures e as real <= Times(w as real, seg as real)
  {
    assert (w * seg) as real == w as real * seg as real;
  }

  lemma SlackIs(t: Table, w: nat)
    ensures 1022.0 * Slack(t, w) == 2.0 * Times(w as real, t.max as real)
  {
  }

  lemma WithinPeriodHeld(t: Table, w: nat, f: nat, sum: nat, pc: nat, delta: nat, v: nat, c: nat)
    requires Held(t, w, f, sum, pc) && v <= w && SCHED_CAPACITY_SCALE * c <= delta * f
    ensures Held(t, w, f, sum + v * c, pc + delta)
  {
    ScaledProduct(v, w, c, delta, f);
    var x := w * f;
    assert x * (t.max - 1024 + (pc + delta)) == x * (t.max - 1024 + pc) + x * delta;
    assert SCHED_CAPACITY_SCALE * (sum + v * c) == SCHED_CAPACITY_SCALE * sum + SCHED_CAPACITY_SCALE * (v * c);
  }

  /** One sum, whether or not a period boundary is crossed. */
  lemma SumHeld(t: Table, w: nat, f: nat, sum: nat, pc: nat, delta: nat, v: nat, c: nat)
    requires TableOk(t) && pc < 1024 && SCHED_CAPACITY_SCALE * c <= Contribution(t, delta, pc) * f
    requires Held(t, w, f, sum, pc) && v <= w
    ensures Held(t, w, f, Grown(Faded(t, sum, (delta + pc) / 1024), v, c), (delta + pc) % 1024)
  {
    hide Held, DecayLoad, Segments;
    if delta + pc < 1024 {
      WithinPeriodHeld(t, w, f, sum, pc, delta, v, c);
    } else {
      CrossingHeld(t, w, f, sum, pc, (delta + pc) / 1024, (delta + pc) % 1024, v, c);
    }
  }

  ghost predicate AvgBounded(t: Table, w: nat, u: nat, f: nat, sa: Avg) {
    && sa.contrib < 1024 && Held(t, w, f, sa.loadSum, sa.contrib) && Held(t, u, f, sa.utilSum, sa.contrib)
    && (if sa.queue then Held(t, w, f, sa.runnableSum, sa.contrib) else sa.runnableSum == 0)
  }

  lemma AccumulateBounded(t: Table, w: nat, u: nat, f: nat, delta: nat, sa: Avg, a: Activity)
    requires TableOk(t) && AvgBounded(t, w, u, f, sa) && ActivityOk(a, w, u, f)
    ensures AvgBounded(t, w, u, f, Accumulate(t, delta, sa, a))
  {
    hide Held, Faded, Contribution, CapScale, Grown, TableOk;
    var c0 := Contribution(t, delta, sa.contrib);
    CapScaleBounds(c0, a.freq);
    var c := CapScale(c0, a.freq);
    MulMono(a.freq, f, c0);
    assert a.freq * c0 == c0 * a.freq && f * c0 == c0 * f;
    SumHeld(t, w, f, sa.loadSum, sa.contrib, delta, a.weight, c);
    SumHeld(t, u, f, sa.utilSum, sa.contrib, delta, if a.running then a.cpu else 0, c);
    if sa.queue { SumHeld(t, w, f, sa.runnableSum, sa.contrib, delta, a.weight, c); }
  }

  // ---- Whole runs ----

  datatype Event = Event(now: U64, activity: Activity)

  predicate ActivityOk(a: Activity, w: nat, u: nat, f: nat) {
    a.weight <= w && a.cpu <= u && a.freq <= f
  }

  function Run(t: Table, sa: Avg, events: seq<Event>): Avg
    requires TableOk(t) && sa.contrib < 1024
    decreases |events|
  {
    if events == [] then sa else Run(t, Update(t, sa, events[0].now, events[0].activity), events[1..])
  }

  lemma UpdateBounded(t: Table, w: nat, u: nat, f: nat, sa: Avg, now: U64, a: Activity)
    requires TableOk(t) && AvgBounded(t, w, u, f, sa) && ActivityOk(a, w, u, f)
    ensures AvgBounded(t, w, u, f, Update(t, sa, now, a))
  {
    hide Held, Accumulate, TableOk, Diff, Units, Stamp, Floor;
    if Diff(now, sa.last) >= 0 {
      var delta := Units(Diff(now, sa.last));
      AccumulateBounded(t, w, u, f, delta, sa.(last := Stamp(sa.last, delta)), a);
    }
  }

  /** Over any run with weights at most w, capacities at most u and frequencies at most f, clock jumps
      included, the sums stay within their bounds. */
  lemma {:induction false} RunBounded(t: Table, w: nat, u: nat, f: nat, sa: Avg, events: seq<Event>)
    requires TableOk(t) && AvgBounded(t, w, u, f, sa)
    requires forall i :: 0 <= i < |events| ==> ActivityOk(events[i].activity, w, u, f)
    ensures AvgBounded(t, w, u, f, Run(t, sa, events))
    decreases |events|
  {
    hide Held, Update, TableOk;
    if events != [] {
      UpdateBounded(t, w, u, f, sa, events[0].now, events[0].activity);
      RunBounded(t, w, u, f, Update(t, sa, events[0].now, events[0].activity), events[1..]);
    }
  }

  /** A fresh entity (load_sum = load_avg * LOAD_AVG_MAX, contrib 1023) starts within the bound. */
  lemma FreshBounded(t: Table, w: nat)
    requires t.max >= 2048
    ensures Bounded(t, w, w * t.max, 1023) && Bounded(t, w, 0, 0)
  {
    assert w * (t.max - 1024 + 1023) == w * t.max - w;
    MulMono(2048, t.max, w);
  }

  /** The largest average of a weight of at most w at frequencies of at most f: it exceeds w * f / 1024
      by at most 4/1022 of that. */
  predicate AtMostShare(avg: nat, w: nat, f: nat) {
    1022 * (SCHED_CAPACITY_SCALE * avg) <= 1022 * (w * f) + 4 * (w * f)
  }

  /** The average is a plain quotient. */
  lemma AverageBound(t: Table, w: nat, f: nat, sum: nat, contrib: nat)
    requires t.max >= 2048 && Held(t, w, f, sum, contrib)
    ensures var avg := Floor(sum, t.max - 1024 + contrib);
      avg == sum / (t.max - 1024 + contrib) && AtMostShare(avg, w, f)
  {
    hide Floor;
    var d, x := t.max - 1024 + contrib, w * f;
    var avg := Floor(sum, d);
    FloorIsQuotient(sum, d);
    FloorBounds(sum, d);
    MulMono(t.max, 2 * d, x);
    assert SCHED_CAPACITY_SCALE * avg * d == SCHED_CAPACITY_SCALE * (avg * d);
    AverageAtMost(SCHED_CAPACITY_SCALE * avg, d, SCHED_CAPACITY_SCALE * sum, x, t.max);
  }

  lemma AveragesBound(t: Table, w: nat, u: nat, f: nat, s: Avg)
    requires t.max >= 2048 && AvgBounded(t, w, u, f, s)
    ensures var r := Averaged(t, s);
      && AtMostShare(r.loadAvg, w, f) && AtMostShare(r.utilAvg, u, f)
      && (s.queue ==> AtMostShare(r.runnableAvg, w, f))
  {
    hide Held, Floor, AtMostShare;
    AverageBound(t, w, f, s.loadSum, s.contrib);
    if s.queue { AverageBound(t, w, f, s.runnableSum, s.contrib); }
    AverageBound(t, u, f, s.utilSum, s.contrib);
  }

  lemma AverageAtMost(avg: nat, d: nat, sum: nat, w: nat, max: nat)
    requires avg * d <= sum && 1022 * sum <= 1022 * (w * d) + 2 * (w * max) && max * w <= 2 * d * w && d > 0
    ensures 1022 * avg <= 1022 * w + 4 * w
  {
    assert 1022 * (avg * d) == 1022 * avg * d;
    assert 1022 * (w * d) + 4 * (w * d) == (1022 * w + 4 * w) * d;
    assert w * max == max * w && 2 * d * w == 2 * (w * d);
    Cancel(1022 * avg, 1022 * w + 4 * w, d);
  }

  // ---- The clock of the sum ----

  /** An update at mid and one at now leave the same time stamp and phase as one at now. */
  lemma SplitClock(t: Table, sa: Avg, mid: U64, now: U64, a: Activity, a': Activity)
    requires TableOk(t) && sa.contrib < 1024
    requires Diff(mid, sa.last) >= 0 && Diff(now, mid) >= 0 && Diff(mid, sa.last) + Diff(now, mid) < HALF
    ensures var twice := Update(t, Update(t, sa, mid, a), now, a'); var once := Update(t, sa, now, a');
      twice.last == once.last && twice.contrib == once.contrib
  {
    hide Update, TableOk, Diff, Stamp, Phase, Units;
    var x, y := Diff(mid, sa.last), Diff(now, mid);
    ClockAfter(t, sa, mid, a);
    AfterUnits(sa.last, mid, now);
    ClockAfter(t, Update(t, sa, mid, a), now, a');
    ClockAfter(t, sa, now, a');
    SplitUnits(sa.last, sa.contrib, x, y);
  }

  /** What is left of the time since the stamp after whole units have been taken off. */
  function Rest(d: nat): nat { d - Units(d) * 1024 }

  lemma AfterUnits(last: U64, mid: U64, now: U64)
    requires Diff(mid, last) >= 0 && Diff(now, mid) >= 0 && Diff(mid, last) + Diff(now, mid) < HALF
    ensures Diff(now, last) == Diff(mid, last) + Diff(now, mid)
    ensures var x := Diff(mid, last); Diff(now, Stamp(last, Units(x))) == Rest(x) + Diff(now, mid)
  {
    hide Diff;
    var x := Diff(mid, last);
    LaterDiff(last, 0, mid, now);
    LaterDiff(last, Units(x) * 1024, mid, now);
  }

  lemma SplitUnits(last: U64, contrib: nat, x: nat, y: nat)
    ensures var n, m := Units(x), Units(Rest(x) + y);
      && Stamp(Stamp(last, n), m) == Stamp(last, Units(x + y))
      && Phase(Phase(contrib, n), m) == Phase(contrib, Units(x + y))
  {
    var n, m := Units(x), Units(Rest(x) + y);
    AddUnits(x, y);
    TwoSteps(last, n * 1024, m * 1024);
    TwoPhases(contrib, n, m);
  }

  lemma AddUnits(x: nat, y: nat)
    ensures Units(x) + Units(Rest(x) + y) == Units(x + y)
  {
  }

  lemma TwoPhases(contrib: nat, n: nat, m: nat)
    ensures ((contrib + n) % 1024 + m) % 1024 == (contrib + (n + m)) % 1024
  {
  }

  lemma DiffForward(a: U64, b: U64)
    requires Diff(a, b) >= 0
    ensures a == (b + Diff(a, b)) % TWO64
  {
  }

  lemma DiffOf(b: U64, d: nat)
    requires d < HALF
    ensures Diff((b + d) % TWO64, b) == d
  {
  }

  lemma LaterDiff(last: U64, k: nat, mid: U64, now: U64)
    requires 0 <= k <= Diff(mid, last) && Diff(now, mid) >= 0 && Diff(mid, last) + Diff(now, mid) < HALF
    ensures Diff(now, (last + k) % TWO64) == Diff(mid, last) - k + Diff(now, mid)
  {
    hide Diff;
    var x, y := Diff(mid, last), Diff(now, mid);
    DiffForward(mid, last);
    DiffForward(now, mid);
    TwoSteps(last, x, y);
    TwoSteps(last, k, x - k + y);
    DiffOf((last + k) % TWO64, x - k + y);
  }

  lemma TwoSteps(last: U64, k: nat, k': nat)
    ensures ((last + k) % TWO64 + k') % TWO64 == (last + (k + k')) % TWO64
  {
  }

  lemma ClockAfter(t: Table, sa: Avg, now: U64, a: Activity)
    requires TableOk(t) && sa.contrib < 1024 && Diff(now, sa.last) >= 0
    ensures var r := Update(t, sa, now, a); var n := Units(Diff(now, sa.last));
      r.last == Stamp(sa.last, n) && r.contrib == Phase(sa.contrib, n)
  {
    hide Contribution, Faded, Grown, CapScale, Floor, Diff, Units;
    assert Stamp(sa.last, 0) == sa.last && Phase(sa.contrib, 0) == sa.contrib;
  }

  /** A clock that jumped back adds nothing, neither then nor when the same time is met again. */
  lemma JumpBack(t: Table, sa: Avg, now: U64, a: Activity, a': Activity)
    requires TableOk(t) && sa.contrib < 1024 && Diff(now, sa.last) < 0
    ensures var r := Update(t, sa, now, a);
      r.(last := sa.last) == sa && Update(t, r, now, a') == r
  {
    hide Accumulate, Averaged;
  }

  // ---- The structure updated in place ----

  class SchedAvg {
    const queue: bool
    var lastUpdateTime: U64
    var periodContrib: nat
    var loadSum: nat
    var runnableSum: nat
    var utilSum: nat
    var loadAvg: nat
    var runnableAvg: nat
    var utilAvg: nat

    function Value(): Avg
      reads this
    {
      Avg(queue, lastUpdateTime, periodContrib, loadSum, runnableSum, utilSum, loadAvg, runnableAvg, utilAvg)
    }

    ghost predicate Valid(t: Table, w: nat, u: nat, f: nat)
      reads this
    {
      TableOk(t) && AvgBounded(t, w, u, f, Value())
    }

    /** accumulate_sum */
    method AccumulateSum(t: Table, delta: nat, a: Activity) returns (periods: nat)
      requires TableOk(t) && periodContrib < 1024
      modifies this
      ensures Value() == Accumulate(t, delta, old(Value()), a)
      ensures periods == (delta + old(periodContrib)) / 1024
    {
      assert |t.inv| == LOAD_AVG_PERIOD;
      hide DecayLoad, Segments, CapScale, TableOk;
      var contrib := delta;
      var rest := delta + periodContrib;
      periods := rest / 1024;
      if periods != 0 {
        loadSum := DecayLoad(t, loadSum, periods);
        if queue { runnableSum := DecayLoad(t, runnableSum, periods); }
        utilSum := DecayLoad(t, utilSum, periods);
        rest := rest % 1024;
        contrib := Segments(t, periods, 1024 - periodContrib, rest);
      }
      periodContrib := rest;
      contrib := CapScale(contrib, a.freq);
      AddWeight(a.weight, contrib);
      if a.running { utilSum := Grown(utilSum, a.cpu, contrib); }
    }

    method AddWeight(weight: nat, contrib: nat)
      modifies `loadSum, `runnableSum
      ensures loadSum == Grown(old(loadSum), weight, contrib)
      ensures runnableSum == if queue then Grown(old(runnableSum), weight, contrib) else old(runnableSum)
    {
      if weight != 0 {
        loadSum := Grown(loadSum, weight, contrib);
        if queue { runnableSum := Grown(runnableSum, weight, contrib); }
      }
    }

    method Average(t: Table)
      requires t.max >= 2048
      modifies `loadAvg, `runnableAvg, `utilAvg
      ensures Value() == Averaged(t, old(Value()))
    {
      hide Floor;
      var divider := t.max - 1024 + periodContrib;
      loadAvg := Floor(loadSum, divider);
      if queue { runnableAvg := Floor(runnableSum, divider); }
      utilAvg := Floor(utilSum, divider);
    }

    /** ___update_load_avg: the averages are renewed exactly when a period boundary was crossed,
        and then exceed the largest share by at most 4/1022 of it. */
    method UpdateLoadAvg(t: Table, now: U64, a: Activity, ghost w: nat, ghost u: nat, ghost f: nat)
      returns (renewed: bool)
      requires Valid(t, w, u, f) && ActivityOk(a, w, u, f)
      modifies this
      ensures Value() == Update(t, old(Value()), now, a) && Valid(t, w, u, f)
      ensures renewed ==> AtMostShare(loadAvg, w, f) && AtMostShare(utilAvg, u, f)
      ensures renewed && queue ==> AtMostShare(runnableAvg, w, f)
      ensures !renewed ==> loadAvg == old(loadAvg) && runnableAvg == old(runnableAvg) && utilAvg == old(utilAvg)
    {
      assert t.max >= 2048 && periodContrib < 1024;
      ghost var before := Value();
      UpdateBounded(t, w, u, f, before, now, a);
      hide Held, AtMostShare, TableOk, Accumulate, AvgBounded, Averaged, Diff, Units, Stamp;
      var elapsed := Diff(now, lastUpdateTime);
      if elapsed < 0 {
        lastUpdateTime := now;
        return false;
      }
      var delta := Units(elapsed);
      if delta == 0 { return false; }
      AccumulateBounded(t, w, u, f, delta, before.(last := Stamp(before.last, delta)), a);
      lastUpdateTime := Stamp(lastUpdateTime, delta);
      var periods := AccumulateSum(t, delta, a);
      if periods == 0 {
        SameAverages(t, delta, before.(last := Stamp(before.last, delta)), a);
        return false;
      }
      AveragesBound(t, w, u, f, Value());
      Average(t);
      return true;
    }
  }

  lemma SameAverages(t: Table, delta: nat, sa: Avg, a: Activity)
    requires TableOk(t) && sa.contrib < 1024
    ensures var r := Accumulate(t, delta, sa, a);
      r.loadAvg == sa.loadAvg && r.runnableAvg == sa.runnableAvg && r.utilAvg == sa.utilAvg && r.queue == sa.queue
  {
  }
}
