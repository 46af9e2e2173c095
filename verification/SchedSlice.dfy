/** How close the computed slices are to the exact proportional ones, over a whole path to the root. */
module SchedSlices {
  import opened Arithmetic
  import opened CalcDelta

  // ---- The period ----

  /** sched_nr_latency is the latency divided by the granularity, rounded up. */
  predicate TuningOk(t: Tuning) {
    t.granularity > 0 && t.latency <= t.nrLatency * t.granularity < t.latency + t.granularity
  }

  /** The period is never shorter than the latency, is the latency as long as the entities fit, leaves
      each of them the granularity but for one that is left over by rounding, and is no longer. */
  lemma PeriodIs(n: nat, t: Tuning)
    requires TuningOk(t)
    ensures var p := SchedPeriod(n, t);
      && t.latency <= p && n * t.granularity < p + t.granularity && (p == t.latency || p == n * t.granularity)
      && (n <= t.nrLatency ==> p == t.latency) && (n > t.nrLatency ==> p == n * t.granularity)
  {
    if n <= t.nrLatency { MulMono(n, t.nrLatency, t.granularity); } else { MulMono(t.nrLatency, n, t.granularity); }
  }

  /** More entities never shorten the period. */
  lemma PeriodMonotone(n: nat, m: nat, t: Tuning)
    requires TuningOk(t) && n <= m
    ensures SchedPeriod(n, t) <= SchedPeriod(m, t)
  {
    PeriodIs(n, t);
    PeriodIs(m, t);
    MulMono(n, m, t.granularity);
  }

  /** sched_vslice: the slice in units of virtual time. */
  method SchedVslice(nrRunning: nat, tuning: Tuning, path: seq<Level>, weight: nat, nice0: nat, unit: nat)
    returns (v: nat)
    requires unit > 0 && PathOk(path, unit) && path != [] && nice0 < TWO32
    ensures v == FairDelta(Slice(SchedPeriod(if path[0].on then nrRunning else nrRunning + 1, tuning), path, unit),
                           weight, nice0, unit)
  {
    hide SchedPeriod, Slice, FairDelta;
    var slice := SchedSlice(nrRunning, tuning, path, unit);
    var lw;
    v, lw := CalcDeltaFair(slice, LoadWeight(weight, 0), nice0, unit);
  }

  // ---- Exact slices ----

  function Ratio(l: Level, unit: nat): (x: real)
    requires unit > 0
  {
    if Down(LevelLoad(l), unit) == 0 then 0.0
    else Down(l.weight, unit) as real / Down(LevelLoad(l), unit) as real
  }

  /** The slice by exact division at every level. */
  function ExactSlice(slice: real, path: seq<Level>, unit: nat): real
    requires unit > 0
    decreases |path|
  {
    if path == [] then slice else ExactSlice(Times(slice, Ratio(path[0], unit)), path[1..], unit)
  }

  /** What the inverse of a load may lose of a time p for a weight w. */
  function Loss(p: nat, w: nat): real { p as real * w as real / TWO32 as real }

  function Weights(path: seq<Level>, unit: nat): nat
    requires unit > 0
  {
    if path == [] then 0 else Down(path[0].weight, unit) + Weights(path[1..], unit)
  }

  lemma RatioBounds(l: Level, unit: nat)
    requires unit > 0 && LevelOk(l, unit)
    ensures 0.0 <= Ratio(l, unit) <= 1.0
    ensures Ratio(l, unit) * Down(LevelLoad(l), unit) as real == Down(l.weight, unit) as real
  {
    hide Down;
    DownMonotone(l.weight, LevelLoad(l), unit);
    if Down(LevelLoad(l), unit) > 0 { DivisionBounds(Down(l.weight, unit) as real, Down(LevelLoad(l), unit) as real); }
  }

  lemma DivisionBounds(w: real, l: real)
    requires 0.0 <= w <= l && l > 0.0
    ensures 0.0 <= w / l <= 1.0 && w / l * l == w
  {
  }

  /** One level: the share is below the exact one by less than 1 and the time times w / 2^32. */
  lemma LevelNear(slice: nat, l: Level, unit: nat)
    requires unit > 0 && LevelOk(l, unit)
    ensures var r := LevelShare(slice, l, unit) as real; var exact := Times(slice as real, Ratio(l, unit));
      r <= exact <= r + 1.0 + Loss(slice, Down(l.weight, unit))
  {
    hide Share, Down, Ratio;
    DownMonotone(l.weight, LevelLoad(l), unit);
    RatioBounds(l, unit);
    var w, load, r := Down(l.weight, unit), Down(LevelLoad(l), unit), LevelShare(slice, l, unit);
    if load > 0 {
      ShareBounds(slice, w, load);
      NearReal(slice, w, load, r, Ratio(l, unit));
    } else {
      NoShare(slice);
      NoRatio(l, unit);
    }
  }

  lemma NoRatio(l: Level, unit: nat)
    requires unit > 0 && Down(LevelLoad(l), unit) == 0
    ensures Ratio(l, unit) == 0.0
  {
  }

  lemma NearReal(slice: nat, w: nat, load: nat, r: nat, q: real)
    requires load > 0 && q * load as real == w as real
    requires r * load <= slice * w && slice * w * TWO32 < (r + 1) * load * TWO32 + slice * w * load
    ensures r as real <= slice as real * q <= r as real + 1.0 + Loss(slice, w)
  {
    var sw, rl := slice * w, (r + 1) * load;
    hide Times;
    CastTimes(r, load);
    CastTimes(slice, w);
    CastTimes(sw, TWO32);
    CastTimes(r + 1, load);
    CastTimes(rl, TWO32);
    CastTimes(sw, load);
    CastLess(r * load, sw, sw * TWO32, rl * TWO32, sw * load);
    NearMul(slice as real, w as real, load as real, r as real, TWO32 as real, q, (r + 1) as real);
  }

  lemma NearMul(s: real, w: real, l: real, r: real, m: real, q: real, r1: real)
    requires l > 0.0 && m > 0.0 && q * l == w && r1 == r + 1.0
    requires Times(r, l) <= Times(s, w) && Times(Times(s, w), m) < Times(Times(r1, l), m) + Times(Times(s, w), l)
    ensures r <= s * q <= r + 1.0 + s * w / m
  {
    NearParts(s, w, l, r, m, q);
  }

  lemma CastLess(a: nat, b: nat, c: nat, d: nat, e: nat)
    requires a <= b && c < d + e
    ensures a as real <= b as real && c as real < d as real + e as real
  {
  }

  lemma NearParts(s: real, w: real, l: real, r: real, m: real, q: real)
    requires l > 0.0 && m > 0.0 && q * l == w && r * l <= s * w && s * w * m < (r + 1.0) * l * m + s * w * l
    ensures r <= s * q <= r + 1.0 + s * w / m
  {
    var x := s * q;
    assert x * l == s * w;
    DivideBounds(r, x, l);
    var y := s * w / m;
    assert y * m == s * w;
    assert (r + 1.0) * l * m + s * w * l == (r + 1.0 + y) * (l * m);
    assert s * w * m == x * (l * m);
    DivideBounds(x, r + 1.0 + y, l * m);
  }

  /** What one level makes of an error e so far. */
  lemma ErrorStep(s: nat, x: real, q: real, e: real, r: nat, d: real)
    requires 0.0 <= q <= 1.0 && 0.0 <= e && s as real <= x <= s as real + e
    requires r as real <= Times(s as real, q) <= r as real + d
    ensures r as real <= Times(x, q) <= r as real + (e + d)
  {
    TimesStep(s as real, x, q, e);
    hide Times;
  }

  lemma LossFacts(s: nat, p: nat, w: nat, rest: nat)
    requires s <= p
    ensures 0.0 <= Loss(s, w) <= Loss(p, w) && Loss(p, w) + Loss(p, rest) == Loss(p, w + rest) && Loss(p, 0) == 0.0
  {
    assert (p as real - s as real) * w as real >= 0.0;
    assert s as real * w as real >= 0.0;
    assert p as real * (w + rest) as real == p as real * w as real + p as real * rest as real;
  }

  lemma {:induction false} SliceNearFrom(s: nat, x: real, e: real, p: nat, path: seq<Level>, unit: nat)
    requires unit > 0 && PathOk(path, unit) && s <= p && 0.0 <= e && s as real <= x <= s as real + e
    ensures var r := Slice(s, path, unit) as real; var exact := ExactSlice(x, path, unit);
      r <= exact <= r + e + |path| as real + Loss(p, Weights(path, unit))
    decreases |path|
  {
    hide LevelOk, LevelShare, Ratio, Down, Loss, Times;
    if path == [] {
      LossFacts(s, p, 0, 0);
    } else {
      var l := path[0];
      RatioBounds(l, unit);
      LevelNear(s, l, unit);
      LevelShareAtMost(s, l, unit);
      var w, r := Down(l.weight, unit), LevelShare(s, l, unit);
      var d := 1.0 + Loss(s, w);
      LossFacts(s, p, w, Weights(path[1..], unit));
      ErrorStep(s, x, Ratio(l, unit), e, r, d);
      SliceNearFrom(r, Times(x, Ratio(l, unit)), e + d, p, path[1..], unit);
    }
  }

  /** The computed slice never exceeds the exact one, and falls short of it by at most one unit for each
      level and the period times the weights of the path over 2^32. */
  lemma SliceNear(period: nat, path: seq<Level>, unit: nat)
    requires unit > 0 && PathOk(path, unit)
    ensures var r := Slice(period, path, unit) as real; var exact := ExactSlice(period as real, path, unit);
      r <= exact <= r + |path| as real + Loss(period, Weights(path, unit))
  {
    SliceNearFrom(period, period as real, 0.0, period, path, unit);
  }

  /** Each of n queued entities of the same weight gets the granularity once they no longer fit the
      latency, less 1 and a part of it as the load is to 2^32. */
  lemma EqualsGetGranularity(n: nat, w: nat, t: Tuning)
    requires TuningOk(t) && n > t.nrLatency && w > 0 && n * w <= TWO32
    ensures PathOk([Level(w, n * w, true)], 1)
    ensures var r := Slice(SchedPeriod(n, t), [Level(w, n * w, true)], 1);
      t.granularity * TWO32 < (r + 1) * TWO32 + t.granularity * (n * w)
  {
    hide Share, Floor;
    var load, g := n * w, t.granularity;
    var l := Level(w, load, true);
    MulMono(1, n, w);
    Unscaled(w);
    Unscaled(load);
    assert LevelOk(l, 1);
    var r := LevelShare(n * g, l, 1);
    assert [l][1..] == [];
    assert Slice(n * g, [l], 1) == r;
    ShareBounds(n * g, w, load);
    EqualParts(n, g, w, load, r);
  }

  lemma Unscaled(w: nat)
    ensures Down(w, 1) == w
  {
    FloorBounds(w, 1);
  }

  lemma EqualParts(n: nat, g: nat, w: nat, load: nat, r: nat)
    requires load == n * w > 0 && n * g * w * TWO32 < (r + 1) * load * TWO32 + n * g * w * load
    ensures g * TWO32 < (r + 1) * TWO32 + g * load
  {
    assert n * g * w == g * load by { assert n * g * w == g * (n * w); }
    SumTimes((r + 1) * TWO32, g * load, load);
    Swap(r + 1, load);
    Swap(g, load);
    CancelLess(g * TWO32, (r + 1) * TWO32 + g * load, load);
  }

  lemma Swap(x: nat, load: nat)
    ensures x * TWO32 * load == x * load * TWO32
  {
  }

  lemma CancelLess(x: nat, y: nat, t: nat)
    requires x * t < y * t
    ensures x < y
  {
    if x >= y { MulMono(y, x, t); }
  }
}
