/**
 Jitter never invents a drift. The key quantity is value * 2^shift - ema: each sample moves
 it from where it was towards the previous value * 2^shift without overshooting, so it
 never leaves the band the values stay in, saturation included. A band narrower than the
 drift threshold is then left for Drift only if it is wide enough to hold the average
 saturated for a whole dwell.
 */
module RegimeNoise {
  import opened Wrappers
  import opened Arithmetic
  import opened Words
  import opened Regime

  ghost predicate InBand(series: seq<Sample>, lo: int, width: nat) {
    forall s | s in series :: lo <= s.value <= lo + width
  }

  /** The width fits in fixed point. */
  ghost predicate BandFits(cfg: Config, width: nat) {
    width * cfg.Scale() < TWO_63
  }

  // ---- The average stays centred ----

  /** Where the fixed-point average of the values would be: it never leaves the band. */
  ghost predicate Centered(cfg: Config, o: Snapshot, lo: int, width: nat) {
    match o.previous
    case None => o.ema == 0
    case Some(p) =>
      && lo <= p <= lo + width
      && lo * cfg.Scale() <= p * cfg.Scale() - o.ema <= (lo + width) * cfg.Scale()
  }

  lemma CenteredBound(cfg: Config, o: Snapshot, lo: int, width: nat)
    requires Centered(cfg, o, lo, width)
    ensures Abs(o.ema) <= width * cfg.Scale()
  {
    var s := cfg.Scale();
    if o.previous.Some? {
      var p := o.previous.value;
      MulMonotone(lo, p, s);
      MulMonotone(p, lo + width, s);
      Distribute(lo, width, s);
    }
  }

  /** A step in fixed point, clamped twice, is exact or saturates towards the exact one. */
  lemma StepInFixedPoint(diff: int, s: nat)
    requires s > 0
    ensures var r, d := ToI64(ToI64(diff) * s), diff * s;
      r == d || TWO_63 - 1 == r <= d || -TWO_63 == r >= d
  {
    var c: int := ToI64(diff);
    MulMonotone(1, s, if c < 0 then -c else c);
    if c < diff {
      MulMonotone(c, diff, s);
    } else if c > diff {
      MulMonotone(diff, c, s);
      Distribute(0, c, s);
    }
  }

  /** One sample, with every product named: low and high are the band's ends, v and p the new
      and the previous value, e the average, q its floored share and r the step, all in fixed
      point. */
  lemma CenterStep(low: int, high: int, v: int, p: int, e: i64, q: int, r: i64)
    requires low <= v <= high && low <= p <= high && low <= p - e <= high
    requires if e >= 0 then 0 <= q <= e else e <= q < 0
    requires r as int == v - p || TWO_63 - 1 == r as int <= v - p || -TWO_63 == r as int >= v - p
    ensures low <= v - ToI64(ToI64(e - q) + r) <= high
  {
  }

  lemma EmaStaysCentered(cfg: Config, o: Snapshot, value: u64, lo: int, width: nat)
    requires cfg.Positive() && Centered(cfg, o, lo, width) && lo <= value <= lo + width
    ensures Centered(cfg, Observed(cfg, o, value), lo, width)
  {
    var s, e := cfg.Scale(), o.ema;
    hide Config.Scale;
    MulMonotone(lo, value, s);
    MulMonotone(value, lo + width, s);
    if o.previous.None? {
      assert 0 / s == 0 && 0 * s == 0;
    } else {
      var p, q := o.previous.value, e / s;
      MulMonotone(lo, p, s);
      MulMonotone(p, lo + width, s);
      Distribute(value, p, s);
      QuotientBetween(e, s, q);
      StepInFixedPoint(value - p, s);
      CenterStep(lo * s, (lo + width) * s, value * s, p * s, e, q, ToI64(ToI64(value - p) * s));
    }
  }

  lemma StepStaysCentered(cfg: Config, o: Snapshot, x: Sample, lo: int, width: nat)
    requires cfg.Positive() && Centered(cfg, o, lo, width) && lo <= x.value <= lo + width
    ensures Centered(cfg, Step(cfg, o, x.ordinal, x.value).0, lo, width)
  {
    EmaStaysCentered(cfg, o, x.value, lo, width);
    StepAverages(cfg, o, x.ordinal, x.value);
    hide Step, NextEma, Config.Scale;
  }

  /** However wide the band: the average stays within its width in fixed point. */
  lemma {:induction false} EmaStaysInBand(cfg: Config, series: seq<Sample>, lo: int, width: nat)
    requires cfg.Positive() && InBand(series, lo, width)
    ensures Centered(cfg, Run(cfg, FRESH, series).0, lo, width)
    ensures Abs(Run(cfg, FRESH, series).0.ema) <= width * cfg.Scale()
  {
    hide Step, Config.Scale;
    if series != [] {
      var n := |series| - 1;
      EmaStaysInBand(cfg, series[..n], lo, width);
      StepStaysCentered(cfg, Run(cfg, FRESH, series[..n]).0, series[n], lo, width);
    }
    CenteredBound(cfg, Run(cfg, FRESH, series).0, lo, width);
  }

  // ---- The threshold ----

  /** A threshold above the width is above it in fixed point too, saturated or not. */
  lemma ThresholdAboveBand(cfg: Config, width: nat)
    requires cfg.Positive() && width < Abs(cfg.driftThreshold)
    ensures BandFits(cfg, width) ==> width * cfg.Scale() < cfg.DriftFixed()
    ensures !BandFits(cfg, width) ==> TWO_63 - 1 <= cfg.DriftFixed()
  {
    var s: int, d: int := cfg.Scale(), cfg.driftThreshold;
    hide Config.Scale;
    Distribute(width, 1, s);
    if d >= 0 {
      MulMonotone(width + 1, d, s);
      NoTightFit(cfg, width);
    } else {
      MulMonotone(width + 1, -d, s);
      Distribute(0, d, s);
    }
  }

  lemma NoTightFit(cfg: Config, width: nat)
    requires width < cfg.driftThreshold
    ensures BandFits(cfg, width) ==> width * cfg.Scale() < TWO_63 - 1
  {
    if cfg.emaShift > 0 {
      var half := Pow2(cfg.emaShift - 1);
      assert width * (2 * half) == 2 * (width * half);
    }
  }

  /** Over a band narrower than the threshold only a saturated average drifts. */
  lemma DriftMeansSaturated(cfg: Config, o: Snapshot, lo: int, width: nat)
    requires cfg.Positive() && Centered(cfg, o, lo, width) && width < Abs(cfg.driftThreshold)
    requires Abs(o.ema) >= cfg.DriftFixed()
    ensures Abs(o.ema) >= TWO_63 - 1 && !BandFits(cfg, width) && cfg.emaShift > 0
  {
    CenteredBound(cfg, o, lo, width);
    ThresholdAboveBand(cfg, width);
    assert cfg.emaShift == 0 ==> cfg.Scale() == 1;
  }

  // ---- How far the values must move to keep the average saturated ----

  /** The smallest step that saturates an average of zero. */
  function Reach(cfg: Config): nat
    requires cfg.Positive()
  {
    Pow2(63 - cfg.emaShift)
  }

  /** The smallest step that keeps a saturated average saturated. */
  function Loss(cfg: Config): nat
    requires cfg.Positive()
  {
    if 2 * cfg.emaShift <= 63 then Pow2(63 - 2 * cfg.emaShift) else 1
  }

  /** How far the values must have moved for n saturated samples in a row. */
  function Span(cfg: Config, n: nat): nat
    requires cfg.Positive()
  {
    if n == 0 then 0 else Reach(cfg) + (n - 1) * Loss(cfg)
  }

  lemma SpanGrows(cfg: Config, m: nat, n: nat)
    requires cfg.Positive()
    ensures Span(cfg, n + 1) == Span(cfg, n) + if n == 0 then Reach(cfg) else Loss(cfg)
    ensures m <= n ==> Span(cfg, m) <= Span(cfg, n)
  {
    var loss: int := Loss(cfg);
    Distribute(n - 1, 1, loss);
    if 0 < m <= n {
      MulMonotone(m - 1, n - 1, loss);
    } else if n > 0 {
      MulMonotone(0, n - 1, loss);
    }
  }

  lemma ReachFills(cfg: Config)
    requires cfg.Positive()
    ensures Reach(cfg) * cfg.Scale() == TWO_63
    ensures cfg.emaShift > 0 ==> 2 <= cfg.Scale() && 2 <= Reach(cfg) <= TWO_63 / 2
  {
    Pow2Adds(63 - cfg.emaShift, cfg.emaShift);
    Pow2Values();
    assert Pow2(63) == 2 * Pow2(62);
    if cfg.emaShift > 0 {
      Pow2Grows(63 - cfg.emaShift, 62);
    }
  }

  lemma FitsBelowReach(cfg: Config, width: nat)
    requires cfg.Positive()
    ensures width < Reach(cfg) <==> BandFits(cfg, width)
  {
    var s, reach := cfg.Scale(), Reach(cfg);
    ReachFills(cfg);
    hide Config.Scale, Reach;
    if width < reach {
      MulMonotone(width + 1, reach, s);
      Distribute(width, 1, s);
    } else {
      MulMonotone(reach, width, s);
    }
  }

  lemma StepReaches(cfg: Config, n: int)
    requires cfg.Positive() && cfg.emaShift > 0
    ensures n >= Reach(cfg) <==> n * cfg.Scale() >= TWO_63 - 1
  {
    var s, reach: int := cfg.Scale(), Reach(cfg);
    ReachFills(cfg);
    hide Config.Scale, Reach;
    if n < reach {
      MulMonotone(n + 1, reach, s);
      Distribute(n, 1, s);
    } else {
      MulMonotone(reach, n, s);
    }
  }

  lemma StepKeeps(cfg: Config, n: int)
    requires cfg.Positive() && cfg.emaShift > 0
    ensures n >= Loss(cfg) <==> n * cfg.Scale() >= Reach(cfg) - 1
    ensures n >= Loss(cfg) ==> n * cfg.Scale() >= Reach(cfg)
  {
    var s, k, loss: int := cfg.Scale(), cfg.emaShift, Loss(cfg);
    ReachFills(cfg);
    if 2 * k <= 63 {
      Pow2Adds(63 - 2 * k, k);
      assert loss * s == Reach(cfg);
    } else {
      Pow2Grows(63 - k, k);
      assert loss * s >= Reach(cfg) && 0 * s == 0;
    }
    hide Config.Scale, Reach, Loss;
    if n < loss {
      MulMonotone(n + 1, loss, s);
      Distribute(n, 1, s);
      if n <= 0 { MulMonotone(n, 0, s); }
    } else {
      MulMonotone(loss, n, s);
    }
  }

  /** The share a saturated average loses to its own decay. */
  lemma SaturatedShare(cfg: Config, e: i64)
    requires cfg.Positive() && cfg.emaShift > 0
    ensures e <= 1 - TWO_63 ==> e / cfg.Scale() + Reach(cfg) == 0
    ensures e >= TWO_63 - 1 ==> e / cfg.Scale() == Reach(cfg) - 1
  {
    var s, reach: int := cfg.Scale(), Reach(cfg);
    ReachFills(cfg);
    hide Config.Scale, Reach;
    Distribute(0, reach, s);
    Distribute(reach, 1, s);
    if e <= 1 - TWO_63 {
      ModUnique(e, e + TWO_63, -reach, s);
    }
    if e >= TWO_63 - 1 {
      ModUnique(e, s - 1, reach - 1, s);
    }
  }

  /** What a step must be when the average is saturated before and after it. */
  lemma KeepingSaturated(cfg: Config, e: i64, diff: int)
    requires cfg.Positive() && cfg.emaShift > 0 && Abs(e) >= TWO_63 - 1
    requires Abs(NextEma(cfg, e, ToI64(diff))) >= TWO_63 - 1
    ensures var e' := NextEma(cfg, e, ToI64(diff));
      if e < 0 then e' < 0 && diff + Loss(cfg) <= 0 else e' > 0 && diff >= Loss(cfg)
  {
    var s, r := cfg.Scale(), ToI64(ToI64(diff) * cfg.Scale());
    var c: int := ToI64(diff);
    SaturatedShare(cfg, e);
    ReachFills(cfg);
    hide Config.Scale, Reach, Loss;
    StepKeeps(cfg, -c);
    StepKeeps(cfg, c);
    Distribute(0, c, s);
  }

  /** What a downward step of enough units does. */
  lemma SaturatesDown(cfg: Config, e: i64, diff: i64)
    requires cfg.Positive() && cfg.emaShift > 0
    requires (e == 0 && diff + Reach(cfg) <= 0) || (e == -TWO_63 && diff + Loss(cfg) <= 0)
    ensures NextEma(cfg, e, diff) == -TWO_63
  {
    var s: nat, m: int := cfg.Scale(), diff;
    SaturatedShare(cfg, e);
    ReachFills(cfg);
    hide Config.Scale, Reach, Loss;
    assert 0 / s == 0;
    StepKeeps(cfg, -m);
    StepReaches(cfg, -m);
    MulMonotone(Reach(cfg), if -m >= Reach(cfg) then -m else Reach(cfg), s);
    Distribute(0, m, s);
  }

  // ---- Runs inside the band ----

  /** While samples count towards the dwell, the average is saturated on one side and the values have moved at least
      that far across the band. */
  ghost predicate Moved(cfg: Config, o: Snapshot, lo: int, width: nat)
    requires cfg.Positive()
  {
    o.driftRun > 0 ==>
      && cfg.emaShift > 0 && o.previous.Some?
      && if o.ema < 0 then o.ema <= 1 - TWO_63 && o.previous.value + Span(cfg, o.driftRun) <= lo + width
         else o.ema >= TWO_63 - 1 && lo + Span(cfg, o.driftRun) <= o.previous.value
  }

  /** A fresh observer's invariant while every value lies in the band. */
  ghost predicate Quiet(cfg: Config, o: Snapshot, lo: int, width: nat)
    requires cfg.Positive()
  {
    Centered(cfg, o, lo, width) && Moved(cfg, o, lo, width) && o.state == Stable
  }

  /** How many samples over the threshold lead from Stable to Drift. */
  function Dwell(cfg: Config): nat {
    if cfg.driftDwell == 0 then 1 else cfg.driftDwell
  }

  /** The band cannot hold a whole dwell of saturated samples. */
  predicate TooNarrow(cfg: Config, width: nat)
    requires cfg.Positive()
  {
    width < Span(cfg, Dwell(cfg))
  }

  /** A sample that counts towards the dwell carries the values one share further. */
  lemma DriftMoves(cfg: Config, o: Snapshot, value: u64, lo: int, width: nat)
    requires cfg.Positive() && Quiet(cfg, o, lo, width) && width < Abs(cfg.driftThreshold)
    requires lo <= value <= lo + width && Abs(Observed(cfg, o, value).ema) >= cfg.DriftFixed()
    ensures Moved(cfg, Observed(cfg, o, value).(driftRun := o.driftRun + 1), lo, width)
    ensures Span(cfg, o.driftRun + 1) <= width
  {
    var o', s := Observed(cfg, o, value), cfg.Scale();
    EmaStaysCentered(cfg, o, value, lo, width);
    DriftMeansSaturated(cfg, o', lo, width);
    SpanGrows(cfg, 0, o.driftRun);
    if o.driftRun == 0 {
      Distribute(lo + width, value, s);
      Distribute(value, lo, s);
      StepReaches(cfg, lo + width - value);
      StepReaches(cfg, value - lo);
    } else {
      KeepingSaturated(cfg, o.ema, value - o.previous.value);
    }
    hide Config.Scale, NextEma, Config.DriftFixed, Reach, Loss;
  }

  lemma StepStaysQuiet(cfg: Config, o: Snapshot, x: Sample, lo: int, width: nat)
    requires cfg.Positive() && Quiet(cfg, o, lo, width) && TooNarrow(cfg, width)
    requires width < Abs(cfg.driftThreshold) && lo <= x.value <= lo + width
    ensures Quiet(cfg, Step(cfg, o, x.ordinal, x.value).0, lo, width)
    ensures Step(cfg, o, x.ordinal, x.value).1.None?
  {
    hide Config.DriftFixed, Config.RecoveryFixed, Centered, NextEma, Span;
    StepStaysCentered(cfg, o, x, lo, width);
    if Abs(Observed(cfg, o, x.value).ema) >= cfg.DriftFixed() {
      DriftMoves(cfg, o, x.value, lo, width);
      SpanGrows(cfg, Dwell(cfg), o.driftRun + 1);
    }
  }

  lemma {:induction false} RunStaysQuiet(cfg: Config, series: seq<Sample>, lo: int, width: nat)
    requires cfg.Positive() && InBand(series, lo, width) && TooNarrow(cfg, width) && width < Abs(cfg.driftThreshold)
    ensures Quiet(cfg, Run(cfg, FRESH, series).0, lo, width) && Run(cfg, FRESH, series).1 == []
  {
    hide Step, Quiet, TooNarrow;
    if series == [] {
      assert Quiet(cfg, FRESH, lo, width) by { FreshIsQuiet(cfg, lo, width); }
    } else {
      var n := |series| - 1;
      RunStaysQuiet(cfg, series[..n], lo, width);
      StepStaysQuiet(cfg, Run(cfg, FRESH, series[..n]).0, series[n], lo, width);
    }
  }

  lemma FreshIsQuiet(cfg: Config, lo: int, width: nat)
    requires cfg.Positive()
    ensures Quiet(cfg, FRESH, lo, width)
  {
  }

  /** Main result: values in a band narrower than the drift threshold that fits in fixed point, however many, keep the
      average below the threshold, the observer Stable and the episode list empty. */
  lemma NoiseNeverDrifts(cfg: Config, series: seq<Sample>, lo: int, width: nat)
    requires cfg.Positive() && InBand(series, lo, width) && width < Abs(cfg.driftThreshold) && BandFits(cfg, width)
    ensures var (o, episodes) := Run(cfg, FRESH, series);
      && Abs(o.ema) <= width * cfg.Scale() && Abs(o.ema) < cfg.DriftFixed()
      && o.state == Stable && o.driftRun == 0 && episodes == []
  {
    var o := Run(cfg, FRESH, series).0;
    FitsBelowReach(cfg, width);
    SpanGrows(cfg, 1, Dwell(cfg));
    RunStaysQuiet(cfg, series, lo, width);
    SpanGrows(cfg, 1, o.driftRun);
    EmaStaysInBand(cfg, series, lo, width);
    ThresholdAboveBand(cfg, width);
    hide Run, Config.Scale, Config.DriftFixed, Reach;
  }

  // ---- Bands that are too wide ----

  /** A descent from the top of the band: first far enough to saturate the average, then just far enough to keep it
      saturated. */
  function Descent(cfg: Config, top: u64, n: nat): (series: seq<Sample>)
    requires cfg.Positive() && n < TWO_64 && Span(cfg, n) <= top
    ensures |series| == n + 1 && series[n] == Sample(n, top - Span(cfg, n))
    ensures InBand(series, top - Span(cfg, n), Span(cfg, n))
  {
    if n == 0 then [Sample(0, top)]
    else
      SpanGrows(cfg, n - 1, n);
      Descent(cfg, top, n - 1) + [Sample(n, top - Span(cfg, n))]
  }

  /** After n steps of the descent. */
  ghost predicate Falling(cfg: Config, o: Snapshot, top: u64, n: nat)
    requires cfg.Positive()
  {
    && o.previous.Some? && o.previous.value + Span(cfg, n) == top && o.ema == (if n == 0 then 0 else -TWO_63)
    && if n < Dwell(cfg) then o.state == Stable && o.driftRun == n else o.state == Drift
  }

  /** Every further sample saturates the average again, and the dwell runs out. */
  lemma {:induction false} DescentDrifts(cfg: Config, top: u64, n: nat)
    requires cfg.Positive() && cfg.emaShift > 0 && cfg.driftThreshold != 0
    requires n <= Dwell(cfg) && Span(cfg, n) <= top
    ensures Falling(cfg, Run(cfg, FRESH, Descent(cfg, top, n)).0, top, n)
  {
    hide Step, Span, Falling, Run, Descent;
    DescentRun(cfg, top, n);
    if n == 0 {
      FirstSampleIsStill(cfg, top);
    } else {
      SpanGrows(cfg, n - 1, n);
      DescentDrifts(cfg, top, n - 1);
      DescentStep(cfg, Run(cfg, FRESH, Descent(cfg, top, n - 1)).0, top, n);
    }
  }

  lemma DescentRun(cfg: Config, top: u64, n: nat)
    requires cfg.Positive() && n < TWO_64 && Span(cfg, n) <= top
    ensures n == 0 ==> Run(cfg, FRESH, Descent(cfg, top, n)).0 == Step(cfg, FRESH, 0, top).0
    ensures n > 0 ==> Span(cfg, n - 1) <= top
    ensures n > 0 ==>
      var before := Run(cfg, FRESH, Descent(cfg, top, n - 1)).0;
      Run(cfg, FRESH, Descent(cfg, top, n)).0 == Step(cfg, before, n, top - Span(cfg, n)).0
  {
    hide Step, Span;
    var series := Descent(cfg, top, n);
    if n == 0 {
      assert series[..0] == [] && Span(cfg, 0) == 0 by { SpanAtZero(cfg); }
    } else {
      SpanGrows(cfg, n - 1, n);
      assert series[..n] == Descent(cfg, top, n - 1);
    }
  }

  lemma SpanAtZero(cfg: Config)
    requires cfg.Positive()
    ensures Span(cfg, 0) == 0
  {
  }

  lemma FirstSampleIsStill(cfg: Config, top: u64)
    requires cfg.Positive() && cfg.driftThreshold != 0
    ensures Falling(cfg, Step(cfg, FRESH, 0, top).0, top, 0)
  {
    ThresholdAboveBand(cfg, 0);
    ZeroEma(cfg);
    hide Config.Scale, Config.Factor, Config.DriftFixed;
  }

  lemma DescentStep(cfg: Config, o: Snapshot, top: u64, n: nat)
    requires cfg.Positive() && cfg.emaShift > 0 && 0 < n <= Dwell(cfg) && Span(cfg, n) <= top
    requires Falling(cfg, o, top, n - 1)
    ensures Falling(cfg, Step(cfg, o, n, top - Span(cfg, n)).0, top, n)
  {
    hide Span, Step, NextEma, Reach, Loss, Config.DriftFixed, Config.Scale, Config.Factor;
    SpanGrows(cfg, n - 1, n - 1);
    SpanIsClamped(cfg);
    SaturatesDown(cfg, o.ema, Span(cfg, n - 1) - Span(cfg, n));
    SampleDrifts(cfg, o, n, top - Span(cfg, n));
  }

  lemma SpanIsClamped(cfg: Config)
    requires cfg.Positive() && cfg.emaShift > 0
    ensures Reach(cfg) < TWO_63 && Loss(cfg) < TWO_63
  {
    ReachFills(cfg);
    Pow2Grows(if 2 * cfg.emaShift <= 63 then 63 - 2 * cfg.emaShift else 0, 62);
    Pow2Values();
  }

  lemma SampleDrifts(cfg: Config, o: Snapshot, t: u64, value: u64)
    requires o.state == Stable && Observed(cfg, o, value).ema == -TWO_63 && o.driftRun < Dwell(cfg)
    ensures var o' := Step(cfg, o, t, value).0;
      && o'.previous == Some(value) && o'.ema == -TWO_63
      && if o.driftRun + 1 < Dwell(cfg) then o'.state == Stable && o'.driftRun == o.driftRun + 1 else o'.state == Drift
  {
    hide NextEma, Config.Scale, Config.Factor;
  }

  lemma ZeroEma(cfg: Config)
    ensures 0 / cfg.Scale() == 0 && 0 * cfg.Factor() == 0
  {
  }

  /** Main result, exactly when noise is harmless: for a band narrower than the drift threshold, every series in it
      leaves a fresh observer Stable if and only if the band cannot hold a whole dwell of saturated samples, and then
      there are no episodes either. For a dwell of at most one sample this is the band's fitting in fixed point. */
  lemma NoiseImmunityExactly(cfg: Config, lo: u64, width: nat)
    requires cfg.Positive() && width < Abs(cfg.driftThreshold) && lo + width < TWO_64
    ensures TooNarrow(cfg, width)
       <==> forall series | InBand(series, lo, width) :: Run(cfg, FRESH, series).0.state == Stable
    ensures TooNarrow(cfg, width) ==> forall series | InBand(series, lo, width) :: Run(cfg, FRESH, series).1 == []
    ensures BandFits(cfg, width) ==> TooNarrow(cfg, width)
    ensures cfg.driftDwell <= 1 ==> (TooNarrow(cfg, width) <==> BandFits(cfg, width))
  {
    FitsBelowReach(cfg, width);
    SpanGrows(cfg, 1, Dwell(cfg));
    if TooNarrow(cfg, width) {
      forall series | InBand(series, lo, width)
        ensures Run(cfg, FRESH, series).0.state == Stable && Run(cfg, FRESH, series).1 == []
      {
        RunStaysQuiet(cfg, series, lo, width);
      }
    } else {
      WideBandShifts(cfg, width);
      var series := Descent(cfg, lo + width, Dwell(cfg));
      assert InBand(series, lo, width);
      DescentDrifts(cfg, lo + width, Dwell(cfg));
    }
  }

  /** Without scaling no band below the threshold is too wide. */
  lemma WideBandShifts(cfg: Config, width: nat)
    requires cfg.Positive() && width < Abs(cfg.driftThreshold) && !BandFits(cfg, width)
    ensures cfg.emaShift > 0
  {
    assert cfg.emaShift == 0 ==> cfg.Scale() == 1;
  }

  /** The average alone: it never reaches the fixed-point threshold, in any series in the band, if and only if the
      band fits; otherwise one step across the band saturates it there. */
  lemma AverageStaysBelowExactly(cfg: Config, lo: u64, width: nat)
    requires cfg.Positive() && width < Abs(cfg.driftThreshold) && lo + width < TWO_64
    ensures BandFits(cfg, width)
       <==> forall series | InBand(series, lo, width) :: Abs(Run(cfg, FRESH, series).0.ema) < cfg.DriftFixed()
  {
    if BandFits(cfg, width) {
      forall series | InBand(series, lo, width)
        ensures Abs(Run(cfg, FRESH, series).0.ema) < cfg.DriftFixed()
      {
        NoiseNeverDrifts(cfg, series, lo, width);
      }
    } else {
      WideBandShifts(cfg, width);
      FitsBelowReach(cfg, width);
      SpanGrows(cfg, 1, 1);
      var series := Descent(cfg, lo + width, 1);
      assert InBand(series, lo, width);
      DescentDrifts(cfg, lo + width, 1);
    }
  }
}
