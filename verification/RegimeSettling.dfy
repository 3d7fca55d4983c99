/**
 Settling: an observer fed a constant value closes its episode and returns to Stable
 within a bound logarithmic in the size of its average, and then stays there.
 */
module RegimeSettling {
  import opened Wrappers
  import opened Arithmetic
  import opened Words
  import opened Regime

  /** `n` samples of one value, with consecutive ordinals from `t`. */
  function Feedings(cfg: Config, o: Snapshot, t: nat, value: u64, n: nat): Snapshot
    decreases n
  {
    if n == 0 then o
    else Step(cfg, Feedings(cfg, o, t, value, n - 1), Truncated(t + n - 1), value).0
  }

  /** How often a magnitude must halve to drop below the scale. */
  function Halvings(magnitude: nat, scale: nat): nat
    requires scale > 0
    decreases magnitude
  {
    if magnitude < scale then 0 else 1 + Halvings(magnitude / 2, scale)
  }

  lemma {:induction false} FeedingsCompose(cfg: Config, o: Snapshot, t: nat, value: u64, m: nat, n: nat)
    ensures Feedings(cfg, o, t, value, m + n)
         == Feedings(cfg, Feedings(cfg, o, t, value, m), t + m, value, n)
    decreases n
  {
    hide Step;
    if n > 0 {
      FeedingsCompose(cfg, o, t, value, m, n - 1);
    }
  }

  /** What an unchanging value does to the average. */
  function Decayed(e: int, scale: int): int
    requires scale > 0
  {
    e - e / scale
  }

  lemma ConstantStep(cfg: Config, o: Snapshot, t: u64, value: u64)
    requires o.previous == Some(value)
    ensures var o' := Step(cfg, o, t, value).0;
      o'.previous == Some(value) && o'.ema == Decayed(o.ema, cfg.Scale())
    ensures Abs(Decayed(o.ema, cfg.Scale())) <= Abs(o.ema)
  {
    StepAverages(cfg, o, t, value);
    QuotientBetween(o.ema, cfg.Scale(), o.ema / cfg.Scale());
    assert 0 * cfg.Factor() == 0;
  }

  /** A share of at least `level` is lost by every sample while level * scale is reached. */
  lemma DecayLoses(e: int, scale: int, level: nat)
    requires scale > 0 && Abs(e) >= level * scale
    ensures Abs(Decayed(e, scale)) <= Abs(e) - level
  {
    var q, l: int := e / scale, level;
    QuotientBetween(e, scale, q);
    FlooredQuotient(e, scale, q);
    if e >= 0 {
      if q < level { MulMonotone(q + 1, l, scale); }
    } else if q > -l {
      MulMonotone(-l + 1, q, scale);
      Distribute(-l, -1, scale);
      Distribute(0, l, scale);
    }
  }

  /** From below 2 * level * scale, `scale` samples lead below level * scale. */
  lemma {:induction false} DecayOneLevel(cfg: Config, o: Snapshot, t: nat, value: u64, level: nat, n: nat)
    requires o.previous == Some(value) && Abs(o.ema) < 2 * (level * cfg.Scale())
    ensures var o' := Feedings(cfg, o, t, value, n);
      && o'.previous == Some(value) && Abs(o'.ema) <= Abs(o.ema)
      && (Abs(o'.ema) < level * cfg.Scale() || Abs(o'.ema) < 2 * (level * cfg.Scale()) - n * level)
    decreases n
  {
    hide Step, Config.Scale;
    if n > 0 {
      DecayOneLevel(cfg, o, t, value, level, n - 1);
      var o' := Feedings(cfg, o, t, value, n - 1);
      ConstantStep(cfg, o', Truncated(t + n - 1), value);
      if Abs(o'.ema) >= level * cfg.Scale() {
        DecayLoses(o'.ema, cfg.Scale(), level);
        Distribute(n, 1, level);
      }
    }
  }

  lemma NoFeeding(cfg: Config, o: Snapshot, t: nat, value: u64, n: nat)
    requires n == 0
    ensures Feedings(cfg, o, t, value, n) == o && Pow2(0) * cfg.Scale() == cfg.Scale()
  {
  }

  lemma Halve(j: nat, s: nat)
    requires j > 0
    ensures Pow2(j) * s == 2 * (Pow2(j - 1) * s) && s * Pow2(j - 1) == Pow2(j - 1) * s
    ensures s + s * (j - 1) == s * j
  {
    Double(Pow2(j - 1), s);
    Distribute(j, 1, s);
  }

  /** The average drops below one unit within scale * j samples when j halvings suffice. */
  lemma {:induction false} AverageSettles(cfg: Config, o: Snapshot, t: nat, value: u64, j: nat)
    requires o.previous == Some(value) && Abs(o.ema) < Pow2(j) * cfg.Scale()
    ensures var o' := Feedings(cfg, o, t, value, cfg.Scale() * j);
      o'.previous == Some(value) && Abs(o'.ema) < cfg.Scale()
    decreases j
  {
    hide Step, Config.Scale, Pow2, Feedings;
    var s := cfg.Scale();
    if j == 0 {
      NoFeeding(cfg, o, t, value, s * 0);
    } else {
      var half := Pow2(j - 1);
      Halve(j, s);
      DecayOneLevel(cfg, o, t, value, half, s);
      AverageSettles(cfg, Feedings(cfg, o, t, value, s), t + s, value, j - 1);
      FeedingsCompose(cfg, o, t, value, s, s * (j - 1));
    }
  }

  lemma {:induction false} HalvingsIsEnough(magnitude: nat, scale: nat)
    requires scale > 0
    ensures magnitude < Pow2(Halvings(magnitude, scale)) * scale
    decreases magnitude
  {
    if magnitude >= scale {
      HalvingsIsEnough(magnitude / 2, scale);
      Double(Pow2(Halvings(magnitude / 2, scale)), scale);
    }
  }

  // ---- The state machine once the average is calm ----

  /** Below every threshold, and staying there. */
  ghost predicate Calm(cfg: Config, o: Snapshot, value: u64) {
    o.previous == Some(value) && Abs(o.ema) < cfg.Scale()
  }

  lemma ScaleFits(cfg: Config)
    requires cfg.Positive()
    ensures cfg.Scale() < TWO_63
  {
    Pow2Grows(cfg.emaShift, 62);
    Pow2Values();
  }

  /** Thresholds of at least one unit are not reached by a calm average. */
  lemma CalmIsBelow(cfg: Config, o: Snapshot, value: u64)
    requires cfg.Positive() && Calm(cfg, o, value)
    ensures cfg.driftThreshold != 0 ==> Abs(o.ema) < cfg.DriftFixed()
    ensures cfg.recoveryThreshold != 0 ==> Abs(o.ema) < cfg.RecoveryFixed()
  {
    var s := cfg.Scale();
    ScaleFits(cfg);
    hide Config.Scale;
    UnitThreshold(cfg.driftThreshold, s);
    UnitThreshold(cfg.recoveryThreshold, s);
  }

  lemma UnitThreshold(threshold: int, s: int)
    requires 0 < s < TWO_63
    ensures threshold != 0 ==> Abs(ToI64(threshold * s)) >= s
  {
    if threshold > 0 { MulMonotone(1, threshold, s); }
    if threshold < 0 { MulMonotone(threshold, -1, s); }
  }

  function AtLeastOne(n: nat): nat {
    if n == 0 then 1 else n
  }

  function Min(a: nat, b: nat): nat {
    if a < b then a else b
  }

  /** How many more calm samples an episode lasts at most, `recovered` samples into its recovery and `counted` samples
      long. With a zero recovery threshold no sample is below it, and only the maximal dwell ends the episode. */
  function EpisodeLeft(cfg: Config, recovered: nat, counted: nat): (r: nat)
    requires recovered < AtLeastOne(cfg.recoveryDwell)
    ensures 1 <= r
  {
    var untilCap := if counted < cfg.maxDwell then cfg.maxDwell - counted else 1;
    if cfg.recoveryThreshold == 0 then untilCap
    else Min(AtLeastOne(cfg.recoveryDwell) - recovered, untilCap)
  }

  /** How many calm samples until Stable, at most. */
  function Remaining(cfg: Config, o: Snapshot): nat
    requires Consistent(cfg, o)
  {
    match o.state
    case Stable => 0
    case Recovering => AtLeastOne(cfg.driftDwell) - o.driftRun
    case InEpisode => EpisodeLeft(cfg, o.recoverRun, o.dwell) + AtLeastOne(cfg.driftDwell)
    case Drift =>
      if Abs(o.cumulative) < cfg.episodeThreshold then AtLeastOne(cfg.driftDwell) - o.driftRun
      else 1 + EpisodeLeft(cfg, 0, 1) + AtLeastOne(cfg.driftDwell)
  }

  lemma CalmStep(cfg: Config, o: Snapshot, t: u64, value: u64)
    requires cfg.Positive() && cfg.driftThreshold != 0
    requires Consistent(cfg, o) && Calm(cfg, o, value)
    ensures var o' := Step(cfg, o, t, value).0;
      && Consistent(cfg, o') && Calm(cfg, o', value)
      && Remaining(cfg, o') <= Remaining(cfg, o) - (if o.state == Stable then 0 else 1)
  {
    StepKeepsConsistent(cfg, o, t, value);
    ConstantStep(cfg, o, t, value);
    var seen := Observed(cfg, o, value);
    StepAverages(cfg, o, t, value);
    assert 0 * cfg.Factor() == 0;
    assert seen.cumulative == o.cumulative;
    CalmIsBelow(cfg, seen, value);
    hide NextEma, Config.DriftFixed, Config.RecoveryFixed, Config.Scale, Config.Factor, Peaked, Truncated;
  }

  lemma RemainingRange(cfg: Config, o: Snapshot)
    requires Consistent(cfg, o)
    ensures Remaining(cfg, o) <= 1 + EpisodeLeft(cfg, 0, 0) + AtLeastOne(cfg.driftDwell)
    ensures Remaining(cfg, o) == 0 <==> o.state == Stable
  {
  }

  lemma {:induction false} CalmRun(cfg: Config, o: Snapshot, t: nat, value: u64, n: nat)
    requires cfg.Positive() && cfg.driftThreshold != 0
    requires Consistent(cfg, o) && Calm(cfg, o, value)
    ensures var o' := Feedings(cfg, o, t, value, n);
      Consistent(cfg, o') && Calm(cfg, o', value) && (o'.state == Stable || Remaining(cfg, o') + n <= Remaining(cfg, o))
    decreases n
  {
    hide Step, Consistent, Calm, Remaining, AtLeastOne;
    if n > 0 {
      var o' := Feedings(cfg, o, t, value, n - 1);
      CalmRun(cfg, o, t, value, n - 1);
      CalmStep(cfg, o', Truncated(t + n - 1), value);
      RemainingRange(cfg, o');
      RemainingRange(cfg, Feedings(cfg, o, t, value, n));
    }
  }

  lemma {:induction false} FeedingsConsistent(cfg: Config, o: Snapshot, t: nat, value: u64, n: nat)
    requires Consistent(cfg, o)
    ensures Consistent(cfg, Feedings(cfg, o, t, value, n))
    decreases n
  {
    hide Step, Consistent;
    if n > 0 {
      FeedingsConsistent(cfg, o, t, value, n - 1);
      StepKeepsConsistent(cfg, Feedings(cfg, o, t, value, n - 1), Truncated(t + n - 1), value);
    }
  }

  /** Samples needed to settle: scale per halving of the average, one sample in which an
      episode may still open, the longest rest of an episode, and the drift dwell. */
  function SettleBound(cfg: Config, ema: int): nat {
    cfg.Scale() * Halvings(Abs(ema), cfg.Scale())
      + 1 + EpisodeLeft(cfg, 0, 0) + AtLeastOne(cfg.driftDwell)
  }

  lemma Settles(cfg: Config, o: Snapshot, t: nat, value: u64, n: nat)
    requires cfg.Positive() && cfg.driftThreshold != 0
    requires Consistent(cfg, o) && o.previous == Some(value) && n >= SettleBound(cfg, o.ema)
    ensures Feedings(cfg, o, t, value, n).state == Stable && !Feedings(cfg, o, t, value, n).open
  {
    hide Step, Config.Scale, Remaining, AtLeastOne, EpisodeLeft;
    var j := Halvings(Abs(o.ema), cfg.Scale());
    var m := cfg.Scale() * j;
    HalvingsIsEnough(Abs(o.ema), cfg.Scale());
    AverageSettles(cfg, o, t, value, j);
    FeedingsConsistent(cfg, o, t, value, m);
    var calm := Feedings(cfg, o, t, value, m);
    CalmRun(cfg, calm, t + m, value, n - m);
    FeedingsCompose(cfg, o, t, value, m, n - m);
    assert m + (n - m) == n;
    FeedingsConsistent(cfg, o, t, value, n);
    RemainingRange(cfg, calm);
    RemainingRange(cfg, Feedings(cfg, o, t, value, n));
  }

  /** After any series, one sample of a new value and then the same value n more times: if n reaches the bound, the
      observer is Stable with no episode open. */
  ghost predicate SettledAfter(cfg: Config, series: seq<Sample>, t: u64, value: u64, n: nat) {
    var o := Step(cfg, Run(cfg, FRESH, series).0, t, value).0;
    n >= SettleBound(cfg, o.ema) ==>
      Feedings(cfg, o, t + 1, value, n).state == Stable && !Feedings(cfg, o, t + 1, value, n).open
  }

  /** Main result: a nonzero drift threshold lets every reachable observer settle, for good. */
  lemma AnyRunSettles(cfg: Config, series: seq<Sample>, t: u64, value: u64, n: nat)
    requires cfg.Positive() && cfg.driftThreshold != 0
    ensures SettledAfter(cfg, series, t, value, n)
  {
    hide Step, SettleBound;
    RunConsistent(cfg, series);
    var before := Run(cfg, FRESH, series).0;
    StepKeepsConsistent(cfg, before, t, value);
    StepAverages(cfg, before, t, value);
    var o := Step(cfg, before, t, value).0;
    if n >= SettleBound(cfg, o.ema) {
      Settles(cfg, o, t + 1, value, n);
    }
  }

  /** Why the drift threshold must not be zero: then an observer that has left Stable never
      returns to it, whatever it is fed. */
  lemma ZeroThresholdNeverSettles(cfg: Config, o: Snapshot, t: u64, value: u64)
    requires cfg.driftThreshold == 0 && o.state != Stable
    ensures Step(cfg, o, t, value).0.state != Stable
  {
    hide NextEma, Config.RecoveryFixed, Truncated;
    assert cfg.driftThreshold * cfg.Scale() == 0;
    assert cfg.DriftFixed() == 0;
  }

  /** With a zero drift threshold every sample counts as drift, whatever its value. */
  lemma {:induction false} ZeroThresholdLeavesStable(cfg: Config, series: seq<Sample>)
    requires cfg.driftThreshold == 0
    ensures var o := Run(cfg, FRESH, series).0;
      if |series| < AtLeastOne(cfg.driftDwell) then o.state == Stable && o.driftRun == |series| else o.state != Stable
  {
    hide NextEma, Config.RecoveryFixed, Truncated, Peaked;
    assert cfg.driftThreshold * cfg.Factor() == 0;
    assert cfg.DriftFixed() == 0;
    if series != [] {
      var n := |series| - 1;
      ZeroThresholdLeavesStable(cfg, series[..n]);
      if Run(cfg, FRESH, series[..n]).0.state != Stable {
        ZeroThresholdNeverSettles(cfg, Run(cfg, FRESH, series[..n]).0, series[n].ordinal, series[n].value);
      }
    }
  }

  lemma {:induction false} ZeroThresholdStaysOut(cfg: Config, o: Snapshot, t: nat, value: u64, n: nat)
    requires cfg.driftThreshold == 0 && o.state != Stable
    ensures Feedings(cfg, o, t, value, n).state != Stable
    decreases n
  {
    hide Step;
    if n > 0 {
      ZeroThresholdStaysOut(cfg, o, t, value, n - 1);
      ZeroThresholdNeverSettles(cfg, Feedings(cfg, o, t, value, n - 1), Truncated(t + n - 1), value);
    }
  }

  /** Exactly when every reachable observer settles: the drift threshold is not zero. */
  lemma SettlesExactly(cfg: Config)
    requires cfg.Positive()
    ensures cfg.driftThreshold != 0 <==> forall series, t, value, n :: SettledAfter(cfg, series, t, value, n)
  {
    if cfg.driftThreshold != 0 {
      forall series, t, value, n ensures SettledAfter(cfg, series, t, value, n) {
        AnyRunSettles(cfg, series, t, value, n);
      }
    } else {
      hide Step, Run, Feedings, SettleBound;
      var series := seq(AtLeastOne(cfg.driftDwell), i => Sample(0, 0));
      ZeroThresholdLeavesStable(cfg, series);
      var before := Run(cfg, FRESH, series).0;
      ZeroThresholdNeverSettles(cfg, before, 0, 0);
      var o := Step(cfg, before, 0, 0).0;
      ZeroThresholdStaysOut(cfg, o, 1, 0, SettleBound(cfg, o.ema));
      assert !SettledAfter(cfg, series, 0, 0, SettleBound(cfg, o.ema));
    }
  }
}
