/** How closely the sums of load tracking follow what they stand for, from both sides. */
module PeltBand {
  import opened Arithmetic
  import opened Wrap64
  import opened Pelt

  // ---- One crossing of period boundaries ----

  /** The three segments stand for 1024 units in every period decayed to its age: x' - b * x for the
      divisors before and after, up to 2 either way. */
  lemma SegmentsBand(t: Table, periods: nat, pc: nat, pc': nat)
    requires TableOk(t) && periods >= 1 && pc <= 1024
    ensures var seg := Segments(t, periods, 1024 - pc, pc') as real;
      var x := (t.max - 1024 + pc') as real - Times(Beta(t, periods), (t.max - 1024 + pc) as real);
      x - 2.0 <= seg <= x + 2.0
  {
    hide Floor, Beta, DecayLoad;
    SegmentsReal(t, periods, pc, pc');
    DecayFactor(t, 1024 - pc, periods);
    DecayFactor(t, t.max, periods);
    FullPeriodsNonNegative(t, periods);
    var d1, d, b := DecayLoad(t, 1024 - pc, periods), DecayLoad(t, t.max, periods), Beta(t, periods);
    Distribute(b, t.max as real, (1024 - pc) as real, (t.max - 1024 + pc) as real);
    assert Segments(t, periods, 1024 - pc, pc') == d1 + (t.max - d - 1024) + pc';
    assert (d1 + (t.max - d - 1024) + pc') as real == d1 as real + t.max as real - d as real - 1024.0 + pc' as real;
  }

  /** s decays by b and grows by v per unit of x at the frequency f, of 1024; rounding loses at most 2 of
      the old sum, 2 units of time, and one unit more unless the frequency is full. */
  predicate Follows(b: real, s: nat, s': nat, x: real, v: nat, f: nat) {
    var share := f as real / 1024.0;
    && s' as real <= Times(b, s as real) + Times(v as real, Times(share, x + 2.0))
    && s' as real >= Times(b, s as real) - 2.0
         + Times(v as real, Times(share, x - 2.0) - (if f == SCHED_CAPACITY_SCALE then 0.0 else 1.0))
  }

  lemma CapScaleReal(seg: nat, f: nat)
    ensures var c := CapScale(seg, f) as real; var exact := Times(f as real / 1024.0, seg as real);
      exact - (if f == SCHED_CAPACITY_SCALE then 0.0 else 1.0) <= c <= exact
  {
    CapScaleBounds(seg, f);
    var c := CapScale(seg, f);
    assert (seg * f) as real == seg as real * f as real;
    assert (1024 * c) as real == 1024.0 * c as real && (1024 * c + 1024) as real == 1024.0 * c as real + 1024.0;
    assert f as real / 1024.0 * seg as real == seg as real * f as real / 1024.0;
  }

  lemma TimesMono(a: real, x: real, y: real)
    requires a >= 0.0 && x <= y
    ensures Times(a, x) <= Times(a, y)
  {
    ScaleReal(x, y, a);
    assert x * a == a * x && y * a == a * y;
  }

  lemma GrowsBy(d: nat, b: real, s: nat, v: nat, seg: nat, f: nat, x: real)
    requires d as real <= Times(b, s as real) <= d as real + 2.0 && x - 2.0 <= seg as real <= x + 2.0
    ensures Follows(b, s, Grown(d, v, CapScale(seg, f)), x, v, f)
  {
    hide Times, CapScale;
    var share, c, loss := f as real / 1024.0, CapScale(seg, f), if f == SCHED_CAPACITY_SCALE then 0.0 else 1.0;
    CapScaleReal(seg, f);
    TimesMono(share, x - 2.0, seg as real);
    TimesMono(share, seg as real, x + 2.0);
    TimesMono(v as real, c as real, Times(share, x + 2.0));
    TimesMono(v as real, Times(share, x - 2.0) - loss, c as real);
    assert (d + v * c) as real == d as real + Times(v as real, c as real) by { CastGrown(d, v, c); }
  }

  lemma CastGrown(d: nat, v: nat, c: nat)
    ensures (d + v * c) as real == d as real + Times(v as real, c as real)
  {
    CastProduct(v, c);
  }

  /** When an update crosses period boundaries, every sum decays by the real factor of the periods and
      grows by what the activity contributes to the divisor, up to rounding. */
  lemma CrossingBand(t: Table, sa: Avg, now: U64, a: Activity)
    requires TableOk(t) && sa.contrib < 1024 && Diff(now, sa.last) >= 0
    requires Units(Diff(now, sa.last)) + sa.contrib >= 1024
    ensures var r := Update(t, sa, now, a);
      var b := Beta(t, (Units(Diff(now, sa.last)) + sa.contrib) / 1024);
      var x := (t.max - 1024 + r.contrib) as real - Times(b, (t.max - 1024 + sa.contrib) as real);
      && Follows(b, sa.loadSum, r.loadSum, x, a.weight, a.freq)
      && Follows(b, sa.utilSum, r.utilSum, x, if a.running then a.cpu else 0, a.freq)
      && (if sa.queue then Follows(b, sa.runnableSum, r.runnableSum, x, a.weight, a.freq)
          else r.runnableSum == sa.runnableSum)
  {
    assert t.max >= 2048 && |t.inv| == LOAD_AVG_PERIOD;
    hide Floor, Beta, DecayLoad, Segments, CapScale, Times, Follows, TableOk, Grown, Diff, Units;
    var delta := Units(Diff(now, sa.last));
    var periods, pc' := (delta + sa.contrib) / 1024, (delta + sa.contrib) % 1024;
    var seg := Segments(t, periods, 1024 - sa.contrib, pc');
    SegmentsBand(t, periods, sa.contrib, pc');
    DecayBand(t, sa.loadSum, periods);
    DecayBand(t, sa.utilSum, periods);
    DecayBand(t, sa.runnableSum, periods);
    var b := Beta(t, periods);
    var x := (t.max - 1024 + pc') as real - Times(b, (t.max - 1024 + sa.contrib) as real);
    GrowsBy(DecayLoad(t, sa.loadSum, periods), b, sa.loadSum, a.weight, seg, a.freq, x);
    GrowsBy(DecayLoad(t, sa.utilSum, periods), b, sa.utilSum, if a.running then a.cpu else 0, seg, a.freq, x);
    GrowsBy(DecayLoad(t, sa.runnableSum, periods), b, sa.runnableSum, a.weight, seg, a.freq, x);
  }

  lemma DecayBand(t: Table, val: nat, n: nat)
    requires TableOk(t)
    ensures 0.0 <= Beta(t, n)
    ensures DecayLoad(t, val, n) as real <= Times(Beta(t, n), val as real) <= DecayLoad(t, val, n) as real + 2.0
  {
    hide DecayLoad, Beta;
    DecayFactor(t, val, n);
    assert val as real * Beta(t, n) == Beta(t, n) * val as real;
  }

  /** Within a period nothing decays, and the time is added as scaled. */
  lemma WithinPeriod(t: Table, sa: Avg, now: U64, a: Activity)
    requires TableOk(t) && sa.contrib < 1024 && Diff(now, sa.last) >= 0
    requires Units(Diff(now, sa.last)) + sa.contrib < 1024
    ensures var r := Update(t, sa, now, a); var delta := Units(Diff(now, sa.last));
      var c := CapScale(delta, a.freq);
      && r.contrib == sa.contrib + delta && r.loadSum == sa.loadSum + a.weight * c
      && r.utilSum == sa.utilSum + (if a.running then a.cpu else 0) * c
      && r.runnableSum == sa.runnableSum + (if sa.queue then a.weight else 0) * c
      && r.loadAvg == sa.loadAvg && r.utilAvg == sa.utilAvg && r.runnableAvg == sa.runnableAvg
  {
    hide Diff, Units, Segments, DecayLoad;
    NoTime(a.freq);
  }

  lemma NoTime(f: nat)
    ensures CapScale(0, f) == 0
  {
  }

  // ---- Runs of permanent activity ----

  /** sum >= w * (max - 1024 + contrib) less a fixed slack of (2 + 2 * w) * max / 1022. */
  predicate Filled(t: Table, w: nat, sum: nat, contrib: nat) {
    t.max >= 1024 && 1022 * (w * (t.max - 1024 + contrib)) <= 1022 * sum + (2 + 2 * w) * t.max
  }

  function Short(t: Table, w: nat): real { Times((2 + 2 * w) as real, t.max as real) / 1022.0 }

  lemma FilledReal(t: Table, w: nat, sum: nat, contrib: nat)
    requires t.max >= 1024
    ensures Filled(t, w, sum, contrib) <==>
      Times(w as real, (t.max - 1024 + contrib) as real) <= sum as real + Short(t, w)
  {
    var x, y := w * (t.max - 1024 + contrib), (2 + 2 * w) * t.max;
    assert x as real == w as real * (t.max - 1024 + contrib) as real;
    assert y as real == (2 + 2 * w) as real * t.max as real;
    assert (1022 * x) as real == 1022.0 * x as real;
    assert (1022 * sum + y) as real == 1022.0 * sum as real + y as real;
  }

  lemma ShortDecay(b: real, l: real, w: real, q: real)
    requires 0.0 <= w && Times(b, l) <= l - 1022.0 && 1022.0 * q == Times(2.0 + 2.0 * w, l)
    ensures Times(b, q) <= q - 2.0 - 2.0 * w
  {
    var m := 2.0 + 2.0 * w;
    ScaleReal(b * l, l - 1022.0, m);
    assert b * l * m == b * (m * l) == 1022.0 * (b * q);
    assert (l - 1022.0) * m == m * l - 1022.0 * m;
  }

  lemma OldGap(b: real, y: real, s: real, q: real)
    requires 0.0 <= b && y <= s + q
    ensures Times(b, y) <= Times(b, s) + Times(b, q)
  {
    ScaleReal(y, s + q, b);
    assert (s + q) * b == b * s + b * q;
  }

  /** One crossing over the reals: b decays, l is the maximum, q the slack, s and s' the sums, x and x'
      the divisors before and after. */
  lemma StepBelow(b: real, l: real, w: real, q: real, x: real, x': real, s: real, s': real)
    requires 0.0 <= b && 0.0 <= w && Times(b, l) <= l - 1022.0 && 1022.0 * q == Times(2.0 + 2.0 * w, l)
    requires Times(w, x) <= s + q && s' >= Times(b, s) - 2.0 + Times(w, x' - Times(b, x) - 2.0)
    ensures Times(w, x') <= s' + q
  {
    ShortDecay(b, l, w, q);
    OldGap(b, Times(w, x), s, q);
    Spread(b, w, x, x');
    hide Times;
  }

  lemma Spread(b: real, w: real, x: real, x': real)
    ensures Times(w, x' - Times(b, x) - 2.0) == Times(w, x') - Times(b, Times(w, x)) - 2.0 * w
  {
    assert (x' - b * x - 2.0) * w == w * x' - b * x * w - 2.0 * w;
    assert b * x * w == b * (w * x);
  }

  /** At full frequency a crossing with a weight of at least w keeps a sum filled. */
  lemma CrossingFilled(t: Table, w: nat, sum: nat, pc: nat, periods: nat, pc': nat, v: nat, f: nat)
    requires TableOk(t) && pc < 1024 && periods >= 1 && v >= w && f >= SCHED_CAPACITY_SCALE
    requires Filled(t, w, sum, pc)
    ensures Filled(t, w, Grown(DecayLoad(t, sum, periods), v, CapScale(Segments(t, periods, 1024 - pc, pc'), f)), pc')
  {
    assert |t.inv| == LOAD_AVG_PERIOD && t.max >= 2048;
    hide Floor, Beta, DecayLoad, Segments, Times, TableOk, CapScale, Filled, Short, Grown;
    var d, seg := DecayLoad(t, sum, periods), Segments(t, periods, 1024 - pc, pc');
    Decays(t, sum, periods);
    DecayBand(t, sum, periods);
    SegmentsBand(t, periods, pc, pc');
    var e := GrownAtLeast(d, v, w, seg, f);
    Filling(t, w, sum, pc, Beta(t, periods), pc', e, seg, d);
  }

  lemma GrownAtLeast(d: nat, v: nat, w: nat, seg: nat, f: nat) returns (e: nat)
    requires v >= w && f >= SCHED_CAPACITY_SCALE
    ensures e >= w * seg && Grown(d, v, CapScale(seg, f)) == d + e
  {
    hide CapScale;
    FullScale(seg, f);
    AtLeastProduct(v, w, CapScale(seg, f), seg);
    e := v * CapScale(seg, f);
  }

  lemma Filling(t: Table, w: nat, sum: nat, pc: nat, b: real, pc': nat, e: nat, seg: nat, d: nat)
    requires t.max >= 1024 && Filled(t, w, sum, pc) && e >= w * seg
    requires 0.0 <= b && Times(b, t.max as real) <= t.max as real - 1022.0 && Times(b, sum as real) <= d as real + 2.0
    requires seg as real >= (t.max - 1024 + pc') as real - Times(b, (t.max - 1024 + pc) as real) - 2.0
    ensures Filled(t, w, d + e, pc')
  {
    hide Times, Filled, Short;
    var x, x' := (t.max - 1024 + pc) as real, (t.max - 1024 + pc') as real;
    CastGrown(d, w, seg);
    TimesMono(w as real, x' - Times(b, x) - 2.0, seg as real);
    FilledReal(t, w, sum, pc);
    FilledReal(t, w, d + e, pc');
    ShortIs(t, w);
    assert (d + e) as real >= (d + w * seg) as real;
    StepBelow(b, t.max as real, w as real, Short(t, w), x, x', sum as real, (d + e) as real);
  }

  lemma ShortIs(t: Table, w: nat)
    ensures 1022.0 * Short(t, w) == Times(2.0 + 2.0 * w as real, t.max as real)
  {
    assert (2 + 2 * w) as real == 2.0 + 2.0 * w as real;
  }

  lemma FullScale(seg: nat, f: nat)
    requires f >= SCHED_CAPACITY_SCALE
    ensures CapScale(seg, f) >= seg
  {
    CapScaleBounds(seg, f);
    MulMono(SCHED_CAPACITY_SCALE, f, seg);
    assert f * seg == seg * f;
  }

  lemma AtLeastProduct(v: nat, w: nat, c: nat, seg: nat)
    requires v >= w && c >= seg
    ensures v * c >= w * seg
  {
    MulMono(w, v, c);
    MulMono(seg, c, w);
  }

  lemma WithinPeriodFilled(t: Table, w: nat, sum: nat, pc: nat, delta: nat, v: nat, f: nat)
    requires Filled(t, w, sum, pc) && v >= w && f >= SCHED_CAPACITY_SCALE
    ensures Filled(t, w, sum + v * CapScale(delta, f), pc + delta)
  {
    hide CapScale;
    FullScale(delta, f);
    AtLeastProduct(v, w, CapScale(delta, f), delta);
    assert w * (t.max - 1024 + (pc + delta)) == w * (t.max - 1024 + pc) + w * delta;
  }

  lemma SumFilled(t: Table, w: nat, sum: nat, pc: nat, delta: nat, v: nat, f: nat)
    requires TableOk(t) && pc < 1024 && v >= w && f >= SCHED_CAPACITY_SCALE && Filled(t, w, sum, pc)
    ensures Filled(t, w, Grown(Faded(t, sum, (delta + pc) / 1024), v, CapScale(Contribution(t, delta, pc), f)),
                   (delta + pc) % 1024)
  {
    hide Filled, DecayLoad, Segments, CapScale;
    if delta + pc < 1024 {
      WithinPeriodFilled(t, w, sum, pc, delta, v, f);
    } else {
      CrossingFilled(t, w, sum, pc, (delta + pc) / 1024, (delta + pc) % 1024, v, f);
    }
  }

  /** Always active: of weight at least w, running on a capacity of at least u, at full frequency. */
  predicate Busy(a: Activity, w: nat, u: nat) {
    a.weight >= w && a.running && a.cpu >= u && a.freq >= SCHED_CAPACITY_SCALE
  }

  ghost predicate AvgFilled(t: Table, w: nat, u: nat, sa: Avg) {
    && sa.contrib < 1024 && Filled(t, w, sa.loadSum, sa.contrib) && Filled(t, u, sa.utilSum, sa.contrib)
    && (sa.queue ==> Filled(t, w, sa.runnableSum, sa.contrib))
  }

  lemma UpdateFilled(t: Table, w: nat, u: nat, sa: Avg, now: U64, a: Activity)
    requires TableOk(t) && AvgFilled(t, w, u, sa) && Busy(a, w, u)
    ensures AvgFilled(t, w, u, Update(t, sa, now, a))
  {
    hide Filled, TableOk, Diff, Units, Stamp, Floor, Faded, Contribution, CapScale, Grown;
    if Diff(now, sa.last) >= 0 {
      var delta := Units(Diff(now, sa.last));
      SumFilled(t, w, sa.loadSum, sa.contrib, delta, a.weight, a.freq);
      SumFilled(t, u, sa.utilSum, sa.contrib, delta, a.cpu, a.freq);
      if sa.queue { SumFilled(t, w, sa.runnableSum, sa.contrib, delta, a.weight, a.freq); }
    }
  }

  /** Whoever is always active stays within the slack below the full sums, whenever updates come. */
  lemma {:induction false} RunFilled(t: Table, w: nat, u: nat, sa: Avg, events: seq<Event>)
    requires TableOk(t) && AvgFilled(t, w, u, sa)
    requires forall i :: 0 <= i < |events| ==> Busy(events[i].activity, w, u)
    ensures AvgFilled(t, w, u, Run(t, sa, events))
    decreases |events|
  {
    hide Filled, Update, TableOk;
    if events != [] {
      UpdateFilled(t, w, u, sa, events[0].now, events[0].activity);
      RunFilled(t, w, u, Update(t, sa, events[0].now, events[0].activity), events[1..]);
    }
  }

  /** And then its average is at least the weight less 1 and 4/1022 of the weight and 1. */
  lemma AverageFilled(t: Table, w: nat, sum: nat, contrib: nat)
    requires t.max >= 2048 && Filled(t, w, sum, contrib)
    ensures var avg := Floor(sum, t.max - 1024 + contrib); 1022 * w <= 1022 * (avg + 1) + 2 * (2 + 2 * w)
  {
    hide Floor;
    var d, m := t.max - 1024 + contrib, 2 + 2 * w;
    FloorBounds(sum, d);
    MulMono(t.max, 2 * d, m);
    FilledQuotient(Floor(sum, d), d, sum, w, m, t.max);
  }

  lemma FilledQuotient(avg: nat, d: nat, sum: nat, w: nat, m: nat, max: nat)
    requires sum < avg * d + d && 1022 * (w * d) <= 1022 * sum + m * max && max * m <= 2 * d * m && d > 0
    ensures 1022 * w <= 1022 * (avg + 1) + 2 * m
  {
    assert 2 * d * m == 2 * m * d;
    assert (1022 * (avg + 1) + 2 * m) * d == 1022 * (avg * d) + 1022 * d + 2 * m * d;
    assert 1022 * w * d == 1022 * (w * d);
    Cancel(1022 * w, 1022 * (avg + 1) + 2 * m, d);
  }

  predicate AtLeastShare(avg: nat, w: nat) { 1022 * w <= 1022 * (avg + 1) + 2 * (2 + 2 * w) }

  /** When an update crosses period boundaries it renews the averages, and those of whoever has always
      been active at full frequency are the weight and the capacity, but for the slack either way. */
  lemma RenewedAverages(t: Table, w: nat, u: nat, sa: Avg, now: U64, a: Activity)
    requires TableOk(t) && Diff(now, sa.last) >= 0 && sa.contrib < 1024
    requires Units(Diff(now, sa.last)) + sa.contrib >= 1024
    requires AvgFilled(t, w, u, sa) && Busy(a, w, u)
    requires AvgBounded(t, w, u, SCHED_CAPACITY_SCALE, sa) && ActivityOk(a, w, u, SCHED_CAPACITY_SCALE)
    ensures var r := Update(t, sa, now, a);
      && AtLeastShare(r.loadAvg, w) && AtMostShare(r.loadAvg, w, SCHED_CAPACITY_SCALE)
      && AtLeastShare(r.utilAvg, u) && AtMostShare(r.utilAvg, u, SCHED_CAPACITY_SCALE)
      && (sa.queue ==> AtLeastShare(r.runnableAvg, w) && AtMostShare(r.runnableAvg, w, SCHED_CAPACITY_SCALE))
  {
    assert t.max >= 2048;
    hide Filled, Held, TableOk, Diff, Units, Stamp, Accumulate, AtLeastShare, AtMostShare, Floor;
    var delta := Units(Diff(now, sa.last));
    var before := sa.(last := Stamp(sa.last, delta));
    var s := Accumulate(t, delta, before, a);
    UpdateFilled(t, w, u, sa, now, a);
    AccumulateBounded(t, w, u, SCHED_CAPACITY_SCALE, delta, before, a);
    SameAverages(t, delta, before, a);
    AveragesBound(t, w, u, SCHED_CAPACITY_SCALE, s);
    FilledShare(t, w, s.loadSum, s.contrib);
    FilledShare(t, u, s.utilSum, s.contrib);
    if sa.queue { FilledShare(t, w, s.runnableSum, s.contrib); }
  }

  lemma FilledShare(t: Table, w: nat, sum: nat, contrib: nat)
    requires t.max >= 2048 && Filled(t, w, sum, contrib)
    ensures AtLeastShare(Floor(sum, t.max - 1024 + contrib), w)
  {
    hide Floor;
    AverageFilled(t, w, sum, contrib);
  }

  /** From anywhere below, a crossing at full frequency brings what is missing beyond the slack down by
      the decay of its periods. */
  lemma GapDecays(t: Table, sa: Avg, now: U64, a: Activity, w: nat)
    requires TableOk(t) && sa.contrib < 1024 && Diff(now, sa.last) >= 0
    requires Units(Diff(now, sa.last)) + sa.contrib >= 1024
    requires a.weight == w && a.freq == SCHED_CAPACITY_SCALE
    ensures var r := Update(t, sa, now, a); var b := Beta(t, (Units(Diff(now, sa.last)) + sa.contrib) / 1024);
      var gap := Times(w as real, (t.max - 1024 + sa.contrib) as real) - sa.loadSum as real;
      var gap' := Times(w as real, (t.max - 1024 + r.contrib) as real) - r.loadSum as real;
      gap' - Short(t, w) <= Times(b, gap - Short(t, w))
  {
    assert t.max >= 2048 && |t.inv| == LOAD_AVG_PERIOD;
    hide Floor, Beta, Times, TableOk, Diff, Units, Short, Update;
    var r := Update(t, sa, now, a);
    var periods := (Units(Diff(now, sa.last)) + sa.contrib) / 1024;
    var b := Beta(t, periods);
    CrossingBand(t, sa, now, a);
    Decays(t, sa.loadSum, periods);
    ShortIs(t, w);
    ShortDecay(b, t.max as real, w as real, Short(t, w));
    var x, x' := (t.max - 1024 + sa.contrib) as real, (t.max - 1024 + r.contrib) as real;
    OneTimes(x' - Times(b, x) - 2.0);
    Spread(b, w as real, x, x');
    GapIs(b, Times(w as real, x), sa.loadSum as real, Short(t, w));
  }

  lemma OneTimes(x: real)
    ensures Times(1024 as real / 1024.0, x) == x
  {
  }

  lemma GapIs(b: real, y: real, s: real, q: real)
    ensures Times(b, y - s - q) == Times(b, y) - Times(b, s) - Times(b, q)
  {
  }

  /** Below full frequency this fails: time that comes in single units is lost in scaling. */
  lemma SmallStepsLost(f: nat)
    ensures CapScale(1, f) == 0 <==> f < SCHED_CAPACITY_SCALE
  {
  }
}
