/** The fixed-point share computation behind time slices: delta * weight / load by a 32-bit
    inverse and shifts. Loads are scaled down by `unit` (scale_load_down). */
module CalcDelta {
  import opened Arithmetic

  const TWO32: nat := 0x1_0000_0000
  const WMULT_CONST: nat := 0xFFFF_FFFF
  const TWO64: nat := 0x1_0000_0000_0000_0000

  /** `inv` caches the inverse of the scaled weight; 0 means not computed. */
  datatype LoadWeight = LoadWeight(weight: nat, inv: nat)

  function Down(w: nat, unit: nat): nat
    requires unit > 0
  {
    Floor(w, unit)
  }

  function InvWeight(w: nat): nat {
    if w >= WMULT_CONST then 1 else if w == 0 then WMULT_CONST else WMULT_CONST / w
  }

  predicate CacheOk(lw: LoadWeight, unit: nat)
    requires unit > 0
  {
    lw.inv == 0 || lw.inv == InvWeight(Down(lw.weight, unit))
  }

  /** How often f must be halved to fit 32 bits. */
  function Excess(f: nat): (n: nat)
    ensures n == 0 <==> f < TWO32
  {
    if f < TWO32 then 0 else 1 + Excess(f / 2)
  }

  function Fit(f: nat): (g: nat)
    ensures g < TWO32 && (f < TWO32 ==> g == f)
  {
    if f < TWO32 then f else Fit(f / 2)
  }

  lemma {:induction false} ExcessBound(f: nat, k: nat)
    requires f < TWO32 * Pow2(k)
    ensures Excess(f) <= k
  {
    if f >= TWO32 {
      if k > 0 { ExcessBound(f / 2, k - 1); }
    }
  }

  lemma Pow32()
    ensures Pow2(32) == TWO32
  {
    assert Pow2(8) == 256;
    assert Pow2(16) == 256 * 256;
    assert Pow2(24) == 256 * 256 * 256;
  }

  /** The final right shift, for w and load already scaled down. */
  function Shift(w: nat, load: nat): int {
    32 - Excess(w) - Excess(Fit(w) * InvWeight(load))
  }

  function Factor(w: nat, load: nat): nat {
    Fit(Fit(w) * InvWeight(load))
  }

  lemma InvSmall(load: nat)
    ensures InvWeight(load) < TWO32
  {
    if 0 < load < WMULT_CONST { QuotientAtMost(WMULT_CONST, load); }
  }

  lemma QuotientAtMost(a: nat, b: nat)
    requires b > 0
    ensures a / b <= a
  {
    FloorIsQuotient(a, b);
    FloorBounds(a, b);
    MulMono(1, b, Floor(a, b));
  }

  lemma ProductSmall(a: nat, b: nat)
    requires a < TWO32 && b < TWO32
    ensures a * b < TWO32 * TWO32
  {
    MulMono(a, TWO32 - 1, b);
    MulMono(b, TWO32 - 1, TWO32 - 1);
  }

  /** The comment's promise: a weight no heavier than the load never over-shifts. */
  lemma ShiftInRange(w: nat, load: nat)
    requires w < TWO64 && (w <= load || w < TWO32)
    ensures 0 <= Shift(w, load) <= 32
  {
    hide InvWeight, Pow2, Excess, Fit;
    InvSmall(load);
    if w < TWO32 {
      ProductSmall(w, InvWeight(load));
      ExcessSmall(w * InvWeight(load));
    } else {
      InvOfBig(load);
      ExcessSmall(w);
    }
  }

  lemma ExcessSmall(f: nat)
    requires f < TWO32 * TWO32
    ensures Excess(f) <= 32
  {
    hide Excess;
    Pow32();
    ExcessBound(f, 32);
  }

  lemma InvOfBig(load: nat)
    requires load >= TWO32
    ensures InvWeight(load) == 1
  {
  }

  /** And a nice-0 weight of 2^10 keeps it at 22 at least, whatever the load. */
  lemma NiceShift(w: nat, load: nat)
    requires w <= 1024
    ensures 22 <= Shift(w, load) <= 32
  {
    hide InvWeight, Excess, Fit;
    InvSmall(load);
    ShiftInRange(w, load);
    MulMono(w, 1024, InvWeight(load));
    assert Pow2(10) == 1024;
    assert w * InvWeight(load) < TWO32 * 1024;
    ExcessBound(w * InvWeight(load), 10);
    assert Fit(w) == w && Excess(w) == 0;
  }

  function Share(delta: nat, w: nat, load: nat): nat
    requires w < TWO64 && (w <= load || w < TWO32)
  {
    ShiftInRange(w, load);
    Floor(delta * Factor(w, load), Pow2(Shift(w, load)))
  }

  // ---- Loops of the source ----

  method UpdateInvWeight(lw: LoadWeight, unit: nat) returns (lw': LoadWeight)
    requires unit > 0 && CacheOk(lw, unit)
    ensures lw' == LoadWeight(lw.weight, InvWeight(Down(lw.weight, unit))) && lw'.inv > 0
  {
    lw' := lw;
    var w := Floor(lw.weight, unit);
    if 0 < w < WMULT_CONST { InvPositive(w); }
    if lw.inv != 0 { return; }
    if w >= WMULT_CONST {
      lw' := lw.(inv := 1);
    } else if w == 0 {
      lw' := lw.(inv := WMULT_CONST);
    } else {
      lw' := lw.(inv := WMULT_CONST / w);
    }
  }

  lemma InvPositive(w: nat)
    requires 0 < w < WMULT_CONST
    ensures WMULT_CONST / w > 0 && WMULT_CONST / w * w <= WMULT_CONST < (WMULT_CONST / w + 1) * w
  {
    assert WMULT_CONST == WMULT_CONST / w * w + WMULT_CONST % w;
  }

  /** Each of the two loops that shift a factor down to 32 bits. */
  method FitFactor(f: nat, shift: int) returns (g: nat, left: int)
    ensures g == Fit(f) && left == shift - Excess(f)
  {
    g, left := f, shift;
    while g >= TWO32
      invariant Fit(g) == Fit(f) && Excess(g) - left == Excess(f) - shift
      decreases g
    {
      g, left := g / 2, left - 1;
    }
  }

  method Calc(delta: nat, weight: nat, lw: LoadWeight, unit: nat) returns (r: nat, lw': LoadWeight, shift: int)
    requires unit > 0 && CacheOk(lw, unit) && weight < TWO64
    requires weight <= lw.weight || Down(weight, unit) < TWO32
    ensures CacheOk(lw', unit) && lw'.weight == lw.weight && 0 <= shift <= 32
    ensures Down(weight, unit) < TWO64
    ensures Down(weight, unit) <= Down(lw.weight, unit) || Down(weight, unit) < TWO32
    ensures r == Share(delta, Down(weight, unit), Down(lw.weight, unit))
  {
    hide Floor, Fit, Excess, InvWeight, Pow2;
    DownMonotone(weight, lw.weight, unit);
    ghost var w, load := Down(weight, unit), Down(lw.weight, unit);
    ShiftInRange(w, load);
    var fact: nat := Floor(weight, unit);
    shift := 32;
    lw' := UpdateInvWeight(lw, unit);
    fact, shift := FitFactor(fact, shift);
    fact, shift := FitFactor(Product(fact, lw'.inv), shift);
    r := Floor(delta * fact, Pow2(shift));
  }

  function Product(a: nat, b: nat): nat { a * b }

  lemma DownMonotone(a: nat, b: nat, unit: nat)
    requires unit > 0
    ensures a <= b ==> Down(a, unit) <= Down(b, unit)
    ensures Down(a, unit) <= a
  {
    if a <= b { FloorMono(a, b, unit); }
    FloorBounds(a, unit);
    MulMono(1, unit, Down(a, unit));
  }

  // ---- How close the share is ----

  /** Below 2^32 nothing is ever shifted early and one multiplication does. */
  lemma PlainShare(delta: nat, w: nat, load: nat)
    requires 0 < load < TWO32 && w <= load
    ensures Share(delta, w, load) == Floor(delta * (w * InvWeight(load)), TWO32)
    ensures InvWeight(load) * load <= WMULT_CONST && TWO32 <= InvWeight(load) * load + load
  {
    hide Floor;
    Pow32();
    var inv := InvWeight(load);
    if load < WMULT_CONST { InvPositive(load); }
    MulMono(w, load, inv);
    assert w * inv <= WMULT_CONST;
    assert Factor(w, load) == w * inv && Shift(w, load) == 32;
  }

  lemma UpperBound(r: nat, a: nat, load: nat, dw: nat)
    requires r * TWO32 <= a && a * load <= dw * TWO32
    ensures r * load <= dw
  {
    MulMono(r * TWO32, a, load);
    Cancel(r * load, dw, TWO32);
  }

  lemma LowerBound(r: nat, a: nat, load: nat, dw: nat, x: nat)
    requires a < r * TWO32 + TWO32 && load > 0 && dw * TWO32 <= a * load + x
    ensures dw * TWO32 < (r + 1) * load * TWO32 + x
  {
    MulMono(a + 1, r * TWO32 + TWO32, load);
  }

  lemma InverseBounds(dw: nat, inv: nat, load: nat)
    requires inv * load <= TWO32 <= inv * load + load
    ensures dw * inv * load <= dw * TWO32 <= dw * inv * load + dw * load
  {
    var c := inv * load;
    MulMono(c, TWO32, dw);
    MulMono(TWO32, c + load, dw);
    assert (c + load) * dw == c * dw + load * dw;
  }

  lemma SmallLoadBounds(delta: nat, w: nat, load: nat)
    requires 0 < load < TWO32 && w <= load
    ensures Share(delta, w, load) * load <= delta * w
    ensures delta * w * TWO32 < (Share(delta, w, load) + 1) * load * TWO32 + delta * w * load
  {
    hide Share, Floor, InvWeight;
    var dw, inv, r := delta * w, InvWeight(load), Share(delta, w, load);
    PlainShare(delta, w, load);
    assert delta * (w * inv) == dw * inv;
    FloorBounds(dw * inv, TWO32);
    InverseBounds(dw, inv, load);
    UpperBound(r, dw * inv, load, dw);
    LowerBound(r, dw * inv, load, dw, dw * load);
  }

  lemma EdgeFull(delta: nat)
    ensures Floor(delta * (TWO32 / 2), TWO32 / 2) == delta == Floor(delta * TWO32, TWO32)
  {
    FloorBounds(delta * (TWO32 / 2), TWO32 / 2);
    FloorBounds(delta * TWO32, TWO32);
  }

  /** At 2^32 the inverse is 1 and nothing is lost but the final floor. */
  lemma EdgeShare(delta: nat, w: nat)
    requires w <= TWO32
    ensures Share(delta, w, TWO32) == Floor(delta * w, TWO32)
  {
    hide Floor;
    Pow32();
    if w < TWO32 {
      assert Factor(w, TWO32) == w && Shift(w, TWO32) == 32;
    } else {
      assert Fit(w) == TWO32 / 2 && Excess(w) == 1 && Pow2(31) * 2 == Pow2(32);
      assert Factor(w, TWO32) == TWO32 / 2 && Shift(w, TWO32) == 31;
      EdgeFull(delta);
    }
  }

  /** The exact share is delta * w / load. The computed one never exceeds it and falls short
      of it by less than 1 + delta * w / 2^32 (both sides multiplied by load * 2^32). */
  lemma ShareBounds(delta: nat, w: nat, load: nat)
    requires 0 < load <= TWO32 && w <= load
    ensures Share(delta, w, load) * load <= delta * w
    ensures delta * w * TWO32 < (Share(delta, w, load) + 1) * load * TWO32 + delta * w * load
  {
    hide Share, Floor;
    if load < TWO32 {
      SmallLoadBounds(delta, w, load);
    } else {
      EdgeShare(delta, w);
      FloorBounds(delta * w, TWO32);
    }
  }

  // ---- Weights heavier than the load ----

  lemma {:induction false} PowSum(a: nat, b: nat)
    ensures Pow2(a) * Pow2(b) == Pow2(a + b)
  {
    if a > 0 {
      PowSum(a - 1, b);
      assert 2 * Pow2(a - 1) * Pow2(b) == 2 * (Pow2(a - 1) * Pow2(b));
    }
  }

  lemma PowSplit(e: nat)
    requires e <= 32
    ensures Pow2(32 - e) * Pow2(e) == TWO32
  {
    PowSum(32 - e, e);
    Pow32();
  }

  /** The shifted factor: what remains is less than one unit, and at least 2^31 if it was shifted. */
  lemma {:induction false} FitBounds(f: nat)
    ensures Fit(f) * Pow2(Excess(f)) <= f < Fit(f) * Pow2(Excess(f)) + Pow2(Excess(f))
    ensures f >= TWO32 ==> 2 * Fit(f) >= TWO32
    ensures f < TWO32 ==> Pow2(Excess(f)) == 1
  {
    if f >= TWO32 {
      FitBounds(f / 2);
      HalfBounds(f, Fit(f / 2), Pow2(Excess(f / 2)));
    }
  }

  lemma HalfBounds(f: nat, g: nat, p: nat)
    requires g * p <= f / 2 < g * p + p
    ensures g * (2 * p) <= f < g * (2 * p) + 2 * p
  {
    assert g * (2 * p) == 2 * (g * p);
  }

  /** What one shift of e loses of the factor: at most twice the exact share, over 2^32 loads. */
  lemma ShiftLoss(fit: nat, p: nat, w: nat, inv: nat, load: nat)
    requires fit * p <= w * inv && inv * load <= TWO32 && 2 * fit >= TWO32
    ensures p * load <= 2 * w
  {
    MulMono(fit * p, w * inv, load);
    MulMono(inv * load, TWO32, w);
    assert fit * p * load == p * load * fit && w * inv * load == inv * load * w;
    MulMono(TWO32, 2 * fit, p * load);
    assert 2 * fit * (p * load) == 2 * (p * load * fit);
    Cancel(p * load, 2 * w, TWO32);
  }

  /** r = delta * fit / q with q * p = 2^32 and fit * p just below a. */
  lemma ShiftedAbove(delta: nat, fit: nat, p: nat, q: nat, r: nat, a: nat)
    requires q * p == TWO32 && r * q <= delta * fit && fit * p <= a
    ensures r * TWO32 <= delta * a
  {
    MulMono(r * q, delta * fit, p);
    assert r * q * p == r * (q * p);
    assert delta * fit * p == fit * p * delta;
    MulMono(fit * p, a, delta);
  }

  lemma ShiftedBelow(delta: nat, fit: nat, p: nat, q: nat, r: nat, a: nat)
    requires q * p == TWO32 && delta * fit < r * q + q && a <= fit * p + p && p > 0
    ensures delta * a < (r + 1) * TWO32 + delta * p
  {
    MulMono(a, fit * p + p, delta);
    SumTimes(fit * p, p, delta);
    assert delta * fit * p == fit * p * delta;
    MulMono(delta * fit + 1, r * q + q, p);
    SumTimes(delta * fit, 1, p);
    SumTimes(r * q, q, p);
    assert r * q * p == r * (q * p);
  }

  lemma SumTimes(x: nat, y: nat, z: nat)
    ensures (x + y) * z == x * z + y * z
  {
  }

  lemma LowerLight(r: nat, a: nat, load: nat, dw: nat, x: nat, y: nat)
    requires a < (r + 1) * TWO32 + x && load > 0 && dw * TWO32 <= a * load + dw * load && x * load <= y
    ensures dw * TWO32 < (r + 1) * load * TWO32 + dw * load + y
  {
    MulMono(a + 1, (r + 1) * TWO32 + x, load);
    assert ((r + 1) * TWO32 + x) * load == (r + 1) * load * TWO32 + x * load;
    assert (a + 1) * load == a * load + load;
  }

  /** The same bounds for any 32-bit weight, with the loss of the early shifts. */
  lemma LightBounds(delta: nat, w: nat, load: nat)
    requires 0 < load < TWO32 && w < TWO32
    ensures Share(delta, w, load) * load <= delta * w
    ensures delta * w * TWO32 < (Share(delta, w, load) + 1) * load * TWO32 + delta * w * load + 2 * (delta * w)
  {
    hide Floor, InvWeight, Pow2, Fit, Excess, Share;
    var inv, r, dw := InvWeight(load), Share(delta, w, load), delta * w;
    InvBounds(load);
    var a := w * inv;
    SharedOut(delta, w, load);
    assert delta * a == dw * inv;
    InverseBounds(dw, inv, load);
    UpperBound(r, delta * a, load, dw);
    var p := Pow2(Excess(a));
    FitBounds(a);
    if a >= TWO32 {
      ShiftLoss(Fit(a), p, w, inv, load);
      LossTimes(p, load, w, delta);
      LowerLight(r, delta * a, load, dw, delta * p, 2 * dw);
    } else {
      LowerLight(r, delta * a, load, dw, 0, 2 * dw);
    }
  }

  lemma LossTimes(p: nat, load: nat, w: nat, delta: nat)
    requires p * load <= 2 * w
    ensures delta * p * load <= 2 * (delta * w)
  {
    MulMono(p * load, 2 * w, delta);
    assert delta * p * load == p * load * delta;
  }

  /** The share against the unshifted product, which is exact if that fits 32 bits. */
  lemma SharedOut(delta: nat, w: nat, load: nat)
    requires 0 < load < TWO32 && w < TWO32
    ensures var a := w * InvWeight(load); var r := Share(delta, w, load);
      && r * TWO32 <= delta * a
      && delta * a < (r + 1) * TWO32 + (if a >= TWO32 then delta * Pow2(Excess(a)) else 0)
  {
    hide Floor, InvWeight, Pow2, Fit, Excess;
    ShiftInRange(w, load);
    var a, r := w * InvWeight(load), Share(delta, w, load);
    var fit, e := Fit(a), Excess(a);
    var p, q := Pow2(e), Pow2(32 - e);
    assert Factor(w, load) == fit && Shift(w, load) == 32 - e;
    FitBounds(a);
    PowSplit(e);
    FloorBounds(delta * fit, q);
    ShiftedAbove(delta, fit, p, q, r, a);
    if a >= TWO32 {
      ShiftedBelow(delta, fit, p, q, r, a);
    } else {
      NotShifted(delta, fit, q, r, a);
    }
  }

  lemma NotShifted(delta: nat, fit: nat, q: nat, r: nat, a: nat)
    requires fit == a && q == TWO32 && delta * fit < r * q + q
    ensures delta * a < (r + 1) * TWO32
  {
  }

  lemma InvBounds(load: nat)
    requires 0 < load < TWO32
    ensures InvWeight(load) * load <= TWO32 <= InvWeight(load) * load + load
  {
    if load < WMULT_CONST { InvPositive(load); }
  }

  /** A load that scales down to 0 counts as 1. */
  lemma ZeroLoad(delta: nat, w: nat)
    requires w < TWO32
    ensures Share(delta, w, 0) == Share(delta, w, 1)
  {
    assert InvWeight(0) == InvWeight(1);
  }

  /** calc_delta_fair: time in units of a nice-0 task. */
  method CalcDeltaFair(delta: nat, lw: LoadWeight, nice0: nat, unit: nat) returns (r: nat, lw': LoadWeight)
    requires unit > 0 && CacheOk(lw, unit) && nice0 < TWO32
    ensures CacheOk(lw', unit) && lw'.weight == lw.weight
    ensures r == FairDelta(delta, lw.weight, nice0, unit)
  {
    hide Floor, Share;
    DownMonotone(nice0, lw.weight, unit);
    r, lw' := delta, lw;
    if lw.weight != nice0 {
      var shift;
      r, lw', shift := Calc(delta, nice0, lw, unit);
    }
  }

  function FairDelta(delta: nat, weight: nat, nice0: nat, unit: nat): nat
    requires unit > 0 && nice0 < TWO32
  {
    DownMonotone(nice0, weight, unit);
    if weight == nice0 then delta else Share(delta, Down(nice0, unit), Down(weight, unit))
  }

  /** Virtual time runs at nice0 / weight of real time, lighter or heavier: never faster, and slower by
      less than one unit and a part in 2^32 of the time for the load and for 2 more. */
  lemma FairDeltaBounds(delta: nat, weight: nat, nice0: nat, unit: nat)
    requires unit > 0 && nice0 < TWO32 && 0 < Down(weight, unit) <= TWO32
    ensures var v, w, load := FairDelta(delta, weight, nice0, unit), Down(nice0, unit), Down(weight, unit);
      && v * load <= delta * w
      && delta * w * TWO32 < (v + 1) * load * TWO32 + delta * w * load + 2 * (delta * w)
  {
    hide Floor, Share;
    DownMonotone(nice0, weight, unit);
    var w, load := Down(nice0, unit), Down(weight, unit);
    if weight == nice0 {
      SameWeight(delta, load);
    } else if load < TWO32 {
      LightBounds(delta, w, load);
    } else {
      ShareBounds(delta, w, load);
    }
  }

  lemma SameWeight(delta: nat, load: nat)
    requires load > 0
    ensures delta * load * TWO32 < (delta + 1) * load * TWO32
  {
    assert (delta + 1) * load == delta * load + load;
  }

  ghost predicate NeverExceeds(load: nat) {
    forall delta: nat, w: nat :: w < TWO64 && w <= load ==> Share(delta, w, load) * load <= delta * w
  }

  lemma BigLoadShare(load: nat)
    requires load > TWO32
    ensures Share(2 * TWO32, WMULT_CONST, load) == 2 * WMULT_CONST
  {
    hide Floor;
    Pow32();
    assert Factor(WMULT_CONST, load) == WMULT_CONST && Shift(WMULT_CONST, load) == 32;
    FloorBounds(2 * TWO32 * WMULT_CONST, TWO32);
  }

  /** The share of a queue never exceeds the exact share if and only if the scaled load is at
      most 2^32: above that the cached inverse is the constant 1. */
  lemma NeverExceedsIff(load: nat)
    ensures NeverExceeds(load) <==> load <= TWO32
  {
    hide Share;
    if load <= TWO32 {
      forall delta: nat, w: nat | w < TWO64 && w <= load
        ensures Share(delta, w, load) * load <= delta * w
      {
        if load > 0 { ShareBounds(delta, w, load); }
      }
    } else {
      BigLoadShare(load);
      assert Share(2 * TWO32, WMULT_CONST, load) * load == 2 * WMULT_CONST * load;
    }
  }

  lemma ShareAtMost(delta: nat, w: nat, load: nat)
    requires load <= TWO32 && w <= load
    ensures Share(delta, w, load) <= delta
  {
    if load > 0 {
      hide Share;
      ShareBounds(delta, w, load);
      MulMono(w, load, delta);
      Cancel(Share(delta, w, load), delta, load);
    } else {
      NoShare(delta);
    }
  }

  lemma NoShare(delta: nat)
    ensures Share(delta, 0, 0) == 0
  {
    assert Factor(0, 0) == 0;
    assert delta * 0 == 0;
  }

  lemma FloorProducts(a: nat, b: nat, f: nat, p: nat)
    requires p > 0
    ensures Floor(a * f, p) + Floor(b * f, p) <= Floor((a + b) * f, p)
  {
    hide Floor;
    FloorSuper(a * f, b * f, p);
    assert (a + b) * f == a * f + b * f;
  }

  lemma ShareSuper(a: nat, b: nat, w: nat, load: nat)
    requires w < TWO64 && w <= load
    ensures Share(a, w, load) + Share(b, w, load) <= Share(a + b, w, load)
  {
    ShiftInRange(w, load);
    hide Floor, Pow2, Factor, Shift;
    FloorProducts(a, b, Factor(w, load), Pow2(Shift(w, load)));
  }

  // ---- Slices ----

  /** sched_latency, stretched when more than `latency / granularity` entities run. */
  function SchedPeriod(running: nat, t: Tuning): nat {
    if running > t.nrLatency then running * t.granularity else t.latency
  }

  /** One level of the walk: the entity's weight, its queue's load, and whether it is queued. */
  datatype Level = Level(weight: nat, load: nat, on: bool)

  function LevelLoad(l: Level): nat { if l.on then l.load else l.load + l.weight }

  predicate LevelOk(l: Level, unit: nat)
    requires unit > 0
  {
    l.weight < TWO64 && l.weight <= LevelLoad(l) && Down(LevelLoad(l), unit) <= TWO32
  }

  predicate PathOk(path: seq<Level>, unit: nat)
    requires unit > 0
  {
    forall i :: 0 <= i < |path| ==> LevelOk(path[i], unit)
  }

  function LevelShare(slice: nat, l: Level, unit: nat): nat
    requires unit > 0 && LevelOk(l, unit)
  {
    DownMonotone(l.weight, LevelLoad(l), unit);
    Share(slice, Down(l.weight, unit), Down(LevelLoad(l), unit))
  }

  function Slice(slice: nat, path: seq<Level>, unit: nat): nat
    requires unit > 0 && PathOk(path, unit)
    decreases |path|
  {
    if path == [] then slice else Slice(LevelShare(slice, path[0], unit), path[1..], unit)
  }

  /** The latency settings: how many entities fit the latency, the latency and the least slice. */
  datatype Tuning = Tuning(nrLatency: nat, latency: nat, granularity: nat)

  /** sched_slice: from the entity's own level to the root, starting from the period of its queue. */
  method SchedSlice(nrRunning: nat, tuning: Tuning, path: seq<Level>, unit: nat) returns (slice: nat)
    requires unit > 0 && PathOk(path, unit) && path != []
    ensures slice == Slice(SchedPeriod(if path[0].on then nrRunning else nrRunning + 1, tuning), path, unit)
  {
    hide SchedPeriod, Floor, Share, InvWeight;
    slice := SchedPeriod(if path[0].on then nrRunning else nrRunning + 1, tuning);
    ghost var period := slice;
    assert path[0..] == path;
    for i := 0 to |path|
      invariant Slice(slice, path[i..], unit) == Slice(period, path, unit)
    {
      var l := path[i];
      assert path[i..][0] == l && path[i..][1..] == path[i + 1..];
      var load := if l.on then l.load else l.load + l.weight;
      var lw, shift;
      slice, lw, shift := Calc(slice, l.weight, LoadWeight(load, 0), unit);
    }
    assert path[|path|..] == [];
  }

  lemma LevelShareSuper(a: nat, b: nat, l: Level, unit: nat)
    requires unit > 0 && LevelOk(l, unit)
    ensures LevelShare(a, l, unit) + LevelShare(b, l, unit) <= LevelShare(a + b, l, unit)
  {
    hide Share;
    DownMonotone(l.weight, LevelLoad(l), unit);
    ShareSuper(a, b, Down(l.weight, unit), Down(LevelLoad(l), unit));
  }

  lemma LevelShareAtMost(a: nat, l: Level, unit: nat)
    requires unit > 0 && LevelOk(l, unit)
    ensures LevelShare(a, l, unit) <= a
  {
    hide Share;
    DownMonotone(l.weight, LevelLoad(l), unit);
    ShareAtMost(a, Down(l.weight, unit), Down(LevelLoad(l), unit));
  }

  lemma {:induction false} SliceSuper(a: nat, b: nat, path: seq<Level>, unit: nat)
    requires unit > 0 && PathOk(path, unit)
    ensures Slice(a, path, unit) + Slice(b, path, unit) <= Slice(a + b, path, unit)
    decreases |path|
  {
    hide LevelOk, LevelShare;
    if path != [] {
      var l := path[0];
      LevelShareSuper(a, b, l, unit);
      var a', b', c' := LevelShare(a, l, unit), LevelShare(b, l, unit), LevelShare(a + b, l, unit);
      SliceSuper(a', b', path[1..], unit);
      SliceSuper(a' + b', c' - (a' + b'), path[1..], unit);
    }
  }

  lemma {:induction false} SliceAtMost(slice: nat, path: seq<Level>, unit: nat)
    requires unit > 0 && PathOk(path, unit)
    ensures Slice(slice, path, unit) <= slice
    decreases |path|
  {
    hide LevelOk, LevelShare;
    if path != [] {
      LevelShareAtMost(slice, path[0], unit);
      SliceAtMost(LevelShare(slice, path[0], unit), path[1..], unit);
    }
  }

  function Total(s: seq<nat>): nat { if s == [] then 0 else s[0] + Total(s[1..]) }

  predicate SiblingsOk(weights: seq<nat>, load: nat, unit: nat)
    requires unit > 0
  {
    (forall i :: 0 <= i < |weights| ==> weights[i] <= load) && load < TWO64 && Down(load, unit) <= TWO32
  }

  /** Sum over queued siblings of their shares, each carried up the common path above. */
  function SiblingSlices(period: nat, weights: seq<nat>, load: nat, above: seq<Level>, unit: nat): nat
    requires unit > 0 && SiblingsOk(weights, load, unit) && PathOk(above, unit)
  {
    if weights == [] then 0
    else
      Slice(period, [Level(weights[0], load, true)] + above, unit) +
      SiblingSlices(period, weights[1..], load, above, unit)
  }

  lemma OwnShare(period: nat, weight: nat, load: nat, unit: nat)
    requires unit > 0 && SiblingsOk([weight], load, unit) && Down(load, unit) > 0
    ensures LevelOk(Level(weight, load, true), unit)
    ensures LevelShare(period, Level(weight, load, true), unit) * Down(load, unit) <= period * Down(weight, unit)
  {
    hide Share;
    assert weight == [weight][0];
    DownMonotone(weight, load, unit);
    ShareBounds(period, Down(weight, unit), Down(load, unit));
  }

  lemma AddProducts(r: nat, rest: nat, w: nat, period: nat, x: nat, y: nat, z: nat)
    requires r * w <= period * x && rest * w <= period * y && x + y <= z
    ensures (r + rest) * w <= period * z
  {
    MulMono(x + y, z, period);
    assert (x + y) * period == period * x + period * y;
    assert (r + rest) * w == r * w + rest * w;
  }

  lemma {:induction false} SharesFit(period: nat, weights: seq<nat>, load: nat, above: seq<Level>, unit: nat)
    returns (sum: nat)
    requires unit > 0 && SiblingsOk(weights, load, unit) && PathOk(above, unit) && Down(load, unit) > 0
    ensures SiblingSlices(period, weights, load, above, unit) <= Slice(sum, above, unit)
    ensures sum * Down(load, unit) <= period * Down(Total(weights), unit)
  {
    hide LevelOk, LevelShare, Down;
    if weights == [] {
      sum := 0;
    } else {
      var rest := SharesFit(period, weights[1..], load, above, unit);
      var l := Level(weights[0], load, true);
      OwnShare(period, weights[0], load, unit);
      assert ([l] + above)[1..] == above;
      var r := LevelShare(period, l, unit);
      SliceSuper(r, rest, above, unit);
      DownSuper(weights[0], Total(weights[1..]), unit);
      AddProducts(r, rest, Down(load, unit), period, Down(weights[0], unit),
                  Down(Total(weights[1..]), unit), Down(Total(weights), unit));
      sum := r + rest;
    }
  }

  lemma DownSuper(a: nat, b: nat, unit: nat)
    requires unit > 0
    ensures Down(a, unit) + Down(b, unit) <= Down(a + b, unit)
  {
    FloorSuper(a, b, unit);
  }

  /** The slices of all queued siblings together, carried up every level of the hierarchy,
      never exceed the period. */
  lemma SlicesFit(period: nat, weights: seq<nat>, load: nat, above: seq<Level>, unit: nat)
    requires unit > 0 && SiblingsOk(weights, load, unit) && PathOk(above, unit)
    requires Total(weights) <= load
    ensures SiblingSlices(period, weights, load, above, unit) <= period
  {
    hide LevelOk, LevelShare, Down, Slice, SiblingSlices;
    var w := Down(load, unit);
    if w > 0 {
      var sum := SharesFit(period, weights, load, above, unit);
      DownMonotone(Total(weights), load, unit);
      MulMono(Down(Total(weights), unit), w, period);
      Cancel(sum, period, w);
      SliceAtMost(sum, above, unit);
    } else {
      NoLoadNoSlices(period, weights, load, above, unit);
    }
  }

  lemma NoLoadNoShare(period: nat, weight: nat, load: nat, unit: nat)
    requires unit > 0 && SiblingsOk([weight], load, unit) && Down(load, unit) == 0
    ensures LevelOk(Level(weight, load, true), unit) && LevelShare(period, Level(weight, load, true), unit) == 0
  {
    assert weight == [weight][0];
    DownMonotone(weight, load, unit);
    NoShare(period);
  }

  lemma {:induction false} NoLoadNoSlices(period: nat, weights: seq<nat>, load: nat, above: seq<Level>, unit: nat)
    requires unit > 0 && SiblingsOk(weights, load, unit) && PathOk(above, unit) && Down(load, unit) == 0
    ensures SiblingSlices(period, weights, load, above, unit) == 0
  {
    hide LevelOk, LevelShare, Down;
    if weights != [] {
      var l := Level(weights[0], load, true);
      NoLoadNoShare(period, weights[0], load, unit);
      assert ([l] + above)[1..] == above;
      SliceAtMost(0, above, unit);
      NoLoadNoSlices(period, weights[1..], load, above, unit);
    }
  }

  /** ... so in particular the running siblings of a queue share its own period. */
  lemma SlicesFitPeriod(tuning: Tuning, weights: seq<nat>, load: nat, above: seq<Level>, unit: nat)
    requires unit > 0 && SiblingsOk(weights, load, unit) && PathOk(above, unit)
    requires Total(weights) <= load
    ensures SiblingSlices(SchedPeriod(|weights|, tuning), weights, load, above, unit) <= SchedPeriod(|weights|, tuning)
  {
    hide SiblingSlices;
    SlicesFit(SchedPeriod(|weights|, tuning), weights, load, above, unit);
  }
}
