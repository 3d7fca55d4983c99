/**
 Every closed regime episode is what its fields say: where it starts, where the largest
 deviation was first reached, where and why it ended, and it never overlaps another one.
 */
module RegimeEpisodes {
  import opened Wrappers
  import opened Words
  import opened Regime

  /** Consecutive ordinals, and steps that fit in 64 signed bits. */
  ghost predicate Proper(s: seq<Sample>) {
    forall i | 0 < i < |s| ::
      s[i].ordinal == s[i - 1].ordinal + 1 && -TWO_63 <= s[i].value - s[i - 1].value < TWO_63
  }

  /** How far sample i deviates from the nominal sample. */
  function Dev(s: seq<Sample>, nominal: nat, i: nat): nat
    requires nominal < |s| && i < |s|
  {
    Abs(s[i].value - s[nominal].value)
  }

  /** The observer after the first n samples of a fresh run. */
  function At(cfg: Config, s: seq<Sample>, n: nat): Snapshot
    requires n <= |s|
  {
    Run(cfg, FRESH, s[..n]).0
  }

  /** The average right after sample i. */
  function EmaAt(cfg: Config, s: seq<Sample>, i: nat): i64
    requires i < |s|
  {
    At(cfg, s, i + 1).ema
  }

  ghost predicate CalmBetween(cfg: Config, s: seq<Sample>, from: int, until: int)
    requires 0 <= from && until <= |s|
  {
    forall i | from <= i < until :: Abs(EmaAt(cfg, s, i)) < cfg.RecoveryFixed()
  }

  /** `peak` is the first sample of [onset, until) with the largest deviation. */
  ghost predicate FirstPeak(s: seq<Sample>, nominal: nat, onset: nat, peak: nat, until: nat)
    requires nominal < |s| && until <= |s|
  {
    && onset <= peak < until
    && (forall i | onset <= i < until :: Dev(s, nominal, i) <= Dev(s, nominal, peak))
    && (forall i | onset <= i < peak :: Dev(s, nominal, i) < Dev(s, nominal, peak))
  }

  /** `e` is an extreme average of [onset, until). */
  ghost predicate ExtremeEma(cfg: Config, s: seq<Sample>, onset: nat, until: nat, e: i64)
    requires until <= |s|
  {
    && (forall i | onset <= i < until :: Abs(EmaAt(cfg, s, i)) <= Abs(e))
    && (exists i | onset <= i < until :: EmaAt(cfg, s, i) == e)
  }

  /** Indices of one episode: its nominal sample, onset, peak and closing sample. */
  datatype Span = Span(nominal: nat, onset: nat, peak: nat, close: nat)

  function Max(a: nat, b: nat): nat {
    if a < b then b else a
  }

  ghost predicate WellFormed(cfg: Config, s: seq<Sample>, e: Episode, p: Span) {
    && p.nominal < p.onset < p.close < |s|
    && FirstPeak(s, p.nominal, p.onset, p.peak, p.close + 1)
    && e.onsetOrdinal == s[p.onset].ordinal && e.closeOrdinal == s[p.close].ordinal
    && e.peakOrdinal == s[p.peak].ordinal && e.peakValue == s[p.peak].value
    && e.peakDeviation == Dev(s, p.nominal, p.peak) && Dev(s, p.nominal, p.onset) >= cfg.episodeThreshold
    && ExtremeEma(cfg, s, p.onset, p.close + 1, e.peakEma)
    && e.dwell == p.close - p.onset + 1 <= Max(cfg.maxDwell, 2)
    && (e.closedBy == MaxDwell ==> e.dwell >= cfg.maxDwell)
    && (e.closedBy == RecoveryDwell ==>
         && Max(cfg.recoveryDwell, 1) <= p.close - p.onset
         && CalmBetween(cfg, s, p.close + 1 - Max(cfg.recoveryDwell, 1), p.close + 1))
  }

  /** The spans of a run's episodes: each well formed, each starting from the sample that
      closed the one before, so no two overlap. `nominal` is the current nominal sample. */
  ghost predicate Chained(cfg: Config, s: seq<Sample>, episodes: seq<Episode>, spans: seq<Span>, nominal: nat) {
    && |spans| == |episodes|
    && (forall k | 0 <= k < |spans| :: WellFormed(cfg, s, episodes[k], spans[k]))
    && (forall k | 0 < k < |spans| :: spans[k].nominal == spans[k - 1].close)
    && (spans != [] ==> spans[0].nominal == 0)
    && nominal == if spans == [] then 0 else spans[|spans| - 1].close
  }

  /** What the observer's fields mean after n samples. */
  ghost predicate Tracks(cfg: Config, s: seq<Sample>, n: nat, nominal: nat, onset: nat, peak: nat)
    requires 0 < n <= |s|
  {
    var o := At(cfg, s, n);
    && nominal < n
    && o.previous == Some(s[n - 1].value) && o.baseline == Some(s[nominal].value)
    && o.cumulative == s[n - 1].value - s[nominal].value
    && (o.open <==> o.state == InEpisode)
    && (o.state == InEpisode ==>
         && nominal < onset < n && FirstPeak(s, nominal, onset, peak, n)
         && o.onsetOrdinal == s[onset].ordinal && o.peakOrdinal == s[peak].ordinal
         && o.peakValue == s[peak].value && o.peakDeviation == Dev(s, nominal, peak)
         && Dev(s, nominal, onset) >= cfg.episodeThreshold
         && ExtremeEma(cfg, s, onset, n, o.peakEma)
         && o.dwell == n - onset < Max(cfg.maxDwell, 2)
         && o.recoverRun < n - onset && (o.recoverRun == 0 || o.recoverRun < cfg.recoveryDwell)
         && CalmBetween(cfg, s, n - o.recoverRun, n))
  }

  lemma OneMore(cfg: Config, s: seq<Sample>, n: nat)
    requires n < |s|
    ensures var (o, eps) := Run(cfg, FRESH, s[..n]);
      var (o', closed) := Step(cfg, o, s[n].ordinal, s[n].value);
      Run(cfg, FRESH, s[..n + 1]) == (o', if closed.Some? then eps + [closed.value] else eps)
  {
    hide Step;
    assert s[..n + 1][..n] == s[..n];
  }

  lemma FirstSample(cfg: Config, s: seq<Sample>)
    requires |s| > 0
    ensures Tracks(cfg, s, 1, 0, 0, 0) && At(cfg, s, 1).state != InEpisode
    ensures Run(cfg, FRESH, s[..1]).1 == []
  {
    hide NextEma, Config.RecoveryFixed, Config.DriftFixed, Config.Scale, Config.Factor;
    OneMore(cfg, s, 0);
    assert s[..0] == [];
  }

  /** The deviation bookkeeping of one sample. */
  lemma ObservedDeviation(cfg: Config, s: seq<Sample>, n: nat, nominal: nat, onset: nat, peak: nat)
    requires Proper(s) && 0 < n < |s| && Tracks(cfg, s, n, nominal, onset, peak)
    ensures var o := Observed(cfg, At(cfg, s, n), s[n].value);
      && o.cumulative == s[n].value - s[nominal].value
      && Truncated(Abs(o.cumulative)) == Abs(o.cumulative) == Dev(s, nominal, n)
      && o.ema == EmaAt(cfg, s, n)
  {
    hide Run, Step, NextEma, EmaAt, FirstPeak, ExtremeEma, CalmBetween;
    ObservedEma(cfg, s, n);
    assert Residual(At(cfg, s, n), s[n].value) == s[n].value - s[n - 1].value;
  }

  lemma ObservedEma(cfg: Config, s: seq<Sample>, n: nat)
    requires n < |s|
    ensures Observed(cfg, At(cfg, s, n), s[n].value).ema == EmaAt(cfg, s, n)
  {
    hide Step, NextEma, Residual;
    OneMore(cfg, s, n);
    StepAverages(cfg, At(cfg, s, n), s[n].ordinal, s[n].value);
  }

  /** A sample outside an episode: the nominal sample stays; if an episode opens, its onset
      and peak are this sample. */
  lemma StepOutside(cfg: Config, s: seq<Sample>, n: nat, nominal: nat, onset: nat, peak: nat)
    requires Proper(s) && 0 < n < |s| && Tracks(cfg, s, n, nominal, onset, peak)
    requires At(cfg, s, n).state != InEpisode
    ensures Tracks(cfg, s, n + 1, nominal, n, n)
    ensures Run(cfg, FRESH, s[..n + 1]).1 == Run(cfg, FRESH, s[..n]).1
  {
    hide Observed, Config.RecoveryFixed, Config.DriftFixed, Truncated, Peaked, Run;
    var o, x := At(cfg, s, n), s[n];
    ObservedDeviation(cfg, s, n, nominal, onset, peak);
    ObservedKeeps(cfg, o, x.value);
    OneMore(cfg, s, n);
    assert EmaAt(cfg, s, n) == At(cfg, s, n + 1).ema;
  }

  /** The average update leaves the state machine's fields alone. */
  lemma ObservedKeeps(cfg: Config, o: Snapshot, value: u64)
    ensures var o' := Observed(cfg, o, value);
      o' == o.(baseline := o'.baseline, previous := Some(value), ema := o'.ema, cumulative := o'.cumulative)
    ensures o.baseline.Some? ==> Observed(cfg, o, value).baseline == o.baseline
  {
  }

  function NewPeak(s: seq<Sample>, nominal: nat, peak: nat, n: nat): (p: nat)
    requires nominal < |s| && peak < |s| && n < |s|
    ensures p < |s|
  {
    if Dev(s, nominal, n) > Dev(s, nominal, peak) then n else peak
  }

  lemma FirstPeakExtends(s: seq<Sample>, nominal: nat, onset: nat, peak: nat, n: nat)
    requires nominal < |s| && n < |s| && FirstPeak(s, nominal, onset, peak, n)
    ensures FirstPeak(s, nominal, onset, NewPeak(s, nominal, peak, n), n + 1)
  {
  }

  lemma ExtremeEmaExtends(cfg: Config, s: seq<Sample>, onset: nat, n: nat, e: i64, e': i64)
    requires onset <= n < |s| && ExtremeEma(cfg, s, onset, n, e)
    requires e' == if Abs(EmaAt(cfg, s, n)) > Abs(e) then EmaAt(cfg, s, n) else e
    ensures ExtremeEma(cfg, s, onset, n + 1, e')
  {
    hide EmaAt;
    if Abs(EmaAt(cfg, s, n)) <= Abs(e) {
      var i :| onset <= i < n && EmaAt(cfg, s, i) == e;
      assert EmaAt(cfg, s, i) == e';
    }
  }

  /** What counting one sample into an open episode means. */
  lemma CountedFields(cfg: Config, s: seq<Sample>, n: nat, nominal: nat, onset: nat, peak: nat)
    requires Proper(s) && 0 < n < |s| && Tracks(cfg, s, n, nominal, onset, peak)
    requires At(cfg, s, n).state == InEpisode
    ensures var o := Observed(cfg, At(cfg, s, n), s[n].value);
      var c := Counted(cfg, o, s[n].ordinal, s[n].value);
      var p := NewPeak(s, nominal, peak, n);
      && c.state == InEpisode && c.open && c.onsetOrdinal == s[onset].ordinal && c.dwell == n + 1 - onset
      && c.peakOrdinal == s[p].ordinal && c.peakValue == s[p].value && c.peakDeviation == Dev(s, nominal, p)
      && c.previous == Some(s[n].value) && c.baseline == Some(s[nominal].value)
      && c.cumulative == s[n].value - s[nominal].value
      && c.ema == EmaAt(cfg, s, n) && c.recoverRun <= At(cfg, s, n).recoverRun + 1
      && CalmBetween(cfg, s, n + 1 - c.recoverRun, n + 1) && ExtremeEma(cfg, s, onset, n + 1, c.peakEma)
      && (c.recoverRun == 0 <==> Abs(c.ema) >= cfg.RecoveryFixed())
  {
    hide Observed, Config.RecoveryFixed, Config.DriftFixed, Truncated, Run, EmaAt;
    var o := Observed(cfg, At(cfg, s, n), s[n].value);
    ObservedDeviation(cfg, s, n, nominal, onset, peak);
    ObservedKeeps(cfg, At(cfg, s, n), s[n].value);
    var c := Counted(cfg, o, s[n].ordinal, s[n].value);
    ExtremeEmaExtends(cfg, s, onset, n, At(cfg, s, n).peakEma, c.peakEma);
  }

  /** A sample inside an episode that does not close it. */
  lemma StepInside(cfg: Config, s: seq<Sample>, n: nat, nominal: nat, onset: nat, peak: nat)
    requires Proper(s) && 0 < n < |s| && Tracks(cfg, s, n, nominal, onset, peak)
    requires At(cfg, s, n).state == InEpisode
    requires Step(cfg, At(cfg, s, n), s[n].ordinal, s[n].value).1.None?
    ensures Tracks(cfg, s, n + 1, nominal, onset, NewPeak(s, nominal, peak, n))
    ensures Run(cfg, FRESH, s[..n + 1]).1 == Run(cfg, FRESH, s[..n]).1
  {
    hide Observed, Counted, Config.RecoveryFixed, Config.DriftFixed, Run, EmaAt, FirstPeak, ExtremeEma, CalmBetween, Dev;
    CountedFields(cfg, s, n, nominal, onset, peak);
    FirstPeakExtends(s, nominal, onset, peak, n);
    ObservedKeeps(cfg, At(cfg, s, n), s[n].value);
    OneMore(cfg, s, n);
  }

  /** A sample that closes the episode. */
  lemma StepClosing(cfg: Config, s: seq<Sample>, n: nat, nominal: nat, onset: nat, peak: nat)
    requires Proper(s) && 0 < n < |s| && Tracks(cfg, s, n, nominal, onset, peak)
    requires At(cfg, s, n).state == InEpisode
    requires Step(cfg, At(cfg, s, n), s[n].ordinal, s[n].value).1.Some?
    ensures Tracks(cfg, s, n + 1, n, 0, 0)
    ensures var e := Step(cfg, At(cfg, s, n), s[n].ordinal, s[n].value).1.value;
      && Run(cfg, FRESH, s[..n + 1]).1 == Run(cfg, FRESH, s[..n]).1 + [e]
      && WellFormed(cfg, s, e, Span(nominal, onset, NewPeak(s, nominal, peak, n), n))
  {
    hide Observed, Counted, Config.RecoveryFixed, Config.DriftFixed, Run, EmaAt, FirstPeak, ExtremeEma, Dev;
    CountedFields(cfg, s, n, nominal, onset, peak);
    FirstPeakExtends(s, nominal, onset, peak, n);
    ObservedKeeps(cfg, At(cfg, s, n), s[n].value);
    OneMore(cfg, s, n);
  }

  /** Main result: in any run with consecutive ordinals and unclamped steps, every closed
      episode is well formed and the episodes are chained without overlap. */
  lemma {:induction false} EpisodesAreWellFormed(cfg: Config, s: seq<Sample>, n: nat)
      returns (spans: seq<Span>, nominal: nat, onset: nat, peak: nat)
    requires Proper(s) && n <= |s|
    ensures n > 0 ==> Tracks(cfg, s, n, nominal, onset, peak)
    ensures Chained(cfg, s, Run(cfg, FRESH, s[..n]).1, spans, nominal)
  {
    hide Run, Tracks, WellFormed;
    if n <= 1 {
      spans, nominal, onset, peak := [], 0, 0, 0;
      if n == 1 { FirstSample(cfg, s); } else { EmptyRun(cfg, s); }
    } else {
      spans, nominal, onset, peak := EpisodesAreWellFormed(cfg, s, n - 1);
      var o := At(cfg, s, n - 1);
      if o.state != InEpisode {
        StepOutside(cfg, s, n - 1, nominal, onset, peak);
        onset, peak := n - 1, n - 1;
      } else if Step(cfg, o, s[n - 1].ordinal, s[n - 1].value).1.None? {
        StepInside(cfg, s, n - 1, nominal, onset, peak);
        peak := TrackedPeak(cfg, s, n - 1, nominal, onset, peak);
      } else {
        StepClosing(cfg, s, n - 1, nominal, onset, peak);
        var p := TrackedPeak(cfg, s, n - 1, nominal, onset, peak);
        spans, nominal, onset, peak := spans + [Span(nominal, onset, p, n - 1)], n - 1, 0, 0;
      }
    }
  }

  function TrackedPeak(cfg: Config, s: seq<Sample>, n: nat, nominal: nat, onset: nat, peak: nat): nat
    requires 0 < n < |s| && Tracks(cfg, s, n, nominal, onset, peak) && At(cfg, s, n).state == InEpisode
  {
    NewPeak(s, nominal, peak, n)
  }

  lemma EmptyRun(cfg: Config, s: seq<Sample>)
    ensures Run(cfg, FRESH, s[..0]).1 == []
  {
  }

  /** Why steps must fit: after two samples the accumulated deviation is exact if and only if
      the step between them fits in 64 signed bits. */
  lemma ExactDeviationNeedsUnclampedStep(cfg: Config, a: Sample, b: Sample)
    ensures At(cfg, [a, b], 2).cumulative == b.value - a.value
       <==> -TWO_63 <= b.value - a.value < TWO_63
  {
    hide NextEma, Config.RecoveryFixed, Config.DriftFixed, Config.Scale, Config.Factor, Truncated;
    var s := [a, b];
    OneMore(cfg, s, 0);
    OneMore(cfg, s, 1);
    assert s[..0] == [];
  }
}
