/**
 When the observer changes state, read off the samples alone: every transition happens at the sample that completes a run
 of averages on the right side of a threshold, all taken in the state it leaves, or, for an episode, at the first sample
 in Drift whose deviation reaches the episode threshold.
 */
module RegimeTransitions {
  import opened Wrappers
  import opened Words
  import opened Regime
  import opened RegimeEpisodes

  /** A side of a threshold. */
  datatype Side = AtLeast(limit: nat) | Under(limit: nat) | Any
  {
    predicate Holds(ema: i64) {
      match this
      case AtLeast(limit) => Abs(ema) >= limit
      case Under(limit) => Abs(ema) < limit
      case Any => true
    }
  }

  /** Sample i was taken in `state` and left the average on the side. */
  predicate Hit(cfg: Config, s: seq<Sample>, i: nat, state: State, side: Side)
    requires i < |s|
  {
    At(cfg, s, i).state == state && side.Holds(EmaAt(cfg, s, i))
  }

  /** The last `len` of the first n samples all hit. */
  ghost predicate Trailing(cfg: Config, s: seq<Sample>, n: nat, len: nat, state: State, side: Side)
    requires n <= |s|
  {
    len <= n && forall i | n - len <= i < n :: Hit(cfg, s, i, state, side)
  }

  /** No longer run of hits ends there. */
  ghost predicate MaxTrail(cfg: Config, s: seq<Sample>, n: nat, len: nat, state: State, side: Side)
    requires n <= |s|
  {
    Trailing(cfg, s, n, len, state, side) && !Trailing(cfg, s, n, len + 1, state, side)
  }

  lemma TrailStep(cfg: Config, s: seq<Sample>, n: nat, len: nat, state: State, side: Side)
    requires n < |s| && MaxTrail(cfg, s, n, len, state, side)
    ensures MaxTrail(cfg, s, n + 1, if Hit(cfg, s, n, state, side) then len + 1 else 0, state, side)
  {
    hide Hit;
  }

  /** A sample not taken in the state, or not on the side, ends every run. */
  lemma TrailBroken(cfg: Config, s: seq<Sample>, n: nat, state: State, side: Side)
    requires n < |s| && !Hit(cfg, s, n, state, side)
    ensures MaxTrail(cfg, s, n + 1, 0, state, side)
  {
    hide Hit;
  }

  lemma TrailMeans(cfg: Config, s: seq<Sample>, n: nat, len: nat, k: nat, state: State, side: Side)
    requires n <= |s| && MaxTrail(cfg, s, n, len, state, side)
    ensures Trailing(cfg, s, n, k, state, side) <==> k <= len
  {
    hide Trailing;
    ShorterTrails(cfg, s, n, k, len + 1, state, side);
    ShorterTrails(cfg, s, n, len, k, state, side);
  }

  lemma ShorterTrails(cfg: Config, s: seq<Sample>, n: nat, long: nat, short: nat, state: State, side: Side)
    requires n <= |s|
    ensures short <= long && Trailing(cfg, s, n, long, state, side) ==> Trailing(cfg, s, n, short, state, side)
  {
    hide Hit;
  }

  function AtLeastOne(n: nat): nat {
    if n == 0 then 1 else n
  }

  /** The side an observer waits for in each state. */
  function Awaited(cfg: Config, state: State): Side {
    match state
    case Stable => AtLeast(cfg.DriftFixed())
    case Drift => Under(cfg.DriftFixed())
    case InEpisode => Under(cfg.RecoveryFixed())
    case Recovering => Under(cfg.DriftFixed())
  }

  /** The run counters count exactly the trailing samples taken in the current state on the awaited side, and the dwell
      the samples taken inside the episode. */
  ghost predicate Counts(cfg: Config, s: seq<Sample>, n: nat)
    requires n <= |s|
  {
    var o := At(cfg, s, n);
    && Consistent(cfg, o)
    && (o.state != InEpisode ==> MaxTrail(cfg, s, n, o.driftRun, o.state, Awaited(cfg, o.state)))
    && (o.state == InEpisode ==>
         && MaxTrail(cfg, s, n, o.recoverRun, InEpisode, Awaited(cfg, InEpisode))
         && exists inside: nat ::
              MaxTrail(cfg, s, n, inside, InEpisode, Any) && o.dwell == (if inside + 1 > 0xFFFF_FFFF then 0xFFFF_FFFF else inside + 1))
  }

  lemma NothingCounted(cfg: Config, s: seq<Sample>)
    ensures Counts(cfg, s, 0)
  {
    hide Config.DriftFixed, Config.RecoveryFixed;
    assert At(cfg, s, 0) == FRESH;
  }

  // ---- What one sample does ----

  /** The next snapshot's fields that matter here, by the state the sample is taken in. */
  lemma StepFields(cfg: Config, o: Snapshot, x: Sample)
    requires Consistent(cfg, o)
    ensures var (o', closed) := Step(cfg, o, x.ordinal, x.value);
      var ema, dev := Observed(cfg, o, x.value).ema, Abs(Observed(cfg, o, x.value).cumulative);
      var hit := Awaited(cfg, o.state).Holds(ema);
      var complete := hit && o.driftRun + 1 >= cfg.driftDwell;
      && (o.state != InEpisode ==> closed.None? && o'.cumulative == Observed(cfg, o, x.value).cumulative)
      && (o.state == Stable ==> o'.state == if complete then Drift else Stable)
      && (o.state == Drift ==>
           && o'.state == (if complete then Stable else if dev >= cfg.episodeThreshold then InEpisode else Drift)
           && (o'.state == InEpisode ==>
                o'.onsetOrdinal == x.ordinal && o'.recoverRun == 0 && o'.dwell == 1 && o'.peakEma == ema))
      && (o.state == Recovering ==> o'.state == if complete then Stable else Recovering)
      && (o.state != InEpisode && o'.state == o.state ==> o'.driftRun == if hit then o.driftRun + 1 else 0)
      && (o.state != InEpisode && o'.state != o.state && o'.state != InEpisode ==> o'.driftRun == 0)
  {
    hide Observed, Config.DriftFixed, Config.RecoveryFixed, Truncated, Peaked;
    ObservedKeeps(cfg, o, x.value);
  }

  lemma StepFieldsInside(cfg: Config, o: Snapshot, x: Sample)
    requires Consistent(cfg, o) && o.state == InEpisode
    ensures var (o', closed) := Step(cfg, o, x.ordinal, x.value);
      var hit := Awaited(cfg, InEpisode).Holds(Observed(cfg, o, x.value).ema);
      var dwell := if o.dwell == 0xFFFF_FFFF then o.dwell else o.dwell + 1;
      var recovered := hit && o.recoverRun + 1 >= cfg.recoveryDwell;
      && o'.state == (if recovered || dwell >= cfg.maxDwell then Recovering else InEpisode)
      && (closed.Some? <==> o'.state == Recovering)
      && (closed.Some? ==> closed.value.closedBy == (if recovered then RecoveryDwell else MaxDwell) && o'.driftRun == 0 && o'.cumulative == 0)
      && (o'.state == InEpisode ==>
           && o'.recoverRun == (if hit then o.recoverRun + 1 else 0) && o'.dwell == dwell
           && o'.cumulative == Observed(cfg, o, x.value).cumulative)
  {
    hide Observed, Config.DriftFixed, Config.RecoveryFixed, Truncated, Peaked;
    ObservedKeeps(cfg, o, x.value);
    PeakedKeeps(Observed(cfg, o, x.value).(dwell := Clamp(o.dwell + 1, 0, 0xFFFF_FFFF)), x.ordinal, x.value);
  }

  lemma PeakedKeeps(o: Snapshot, ordinal: u64, value: u64)
    ensures var p := Peaked(o, ordinal, value);
      p == o.(peakDeviation := p.peakDeviation, peakOrdinal := p.peakOrdinal, peakValue := p.peakValue, peakEma := p.peakEma)
  {
    hide Truncated;
  }

  lemma HitMeans(cfg: Config, s: seq<Sample>, n: nat, state: State, side: Side)
    requires n < |s|
    ensures Hit(cfg, s, n, state, side) <==>
      At(cfg, s, n).state == state && side.Holds(Observed(cfg, At(cfg, s, n), s[n].value).ema)
  {
    hide At, Observed, EmaAt;
    ObservedEma(cfg, s, n);
  }

  lemma NextSnapshot(cfg: Config, s: seq<Sample>, n: nat)
    requires n < |s|
    ensures At(cfg, s, n + 1) == Step(cfg, At(cfg, s, n), s[n].ordinal, s[n].value).0
    ensures Run(cfg, FRESH, s[..n + 1]).1 == Run(cfg, FRESH, s[..n]).1
      + match Step(cfg, At(cfg, s, n), s[n].ordinal, s[n].value).1 { case None => [] case Some(e) => [e] }
  {
    hide Step, Run;
    OneMore(cfg, s, n);
  }

  lemma CountsStep(cfg: Config, s: seq<Sample>, n: nat)
    requires n < |s| && Counts(cfg, s, n)
    ensures Counts(cfg, s, n + 1)
  {
    hide At, Step, MaxTrail, Hit, Consistent, Observed, Awaited;
    var o := At(cfg, s, n);
    NextSnapshot(cfg, s, n);
    StepKeepsConsistent(cfg, o, s[n].ordinal, s[n].value);
    if o.state == InEpisode {
      CountsInside(cfg, s, n);
    } else {
      CountsOutside(cfg, s, n);
    }
  }

  lemma CountsOutside(cfg: Config, s: seq<Sample>, n: nat)
    requires n < |s| && Counts(cfg, s, n) && At(cfg, s, n).state != InEpisode
    requires Consistent(cfg, At(cfg, s, n + 1)) && At(cfg, s, n + 1) == Step(cfg, At(cfg, s, n), s[n].ordinal, s[n].value).0
    ensures Counts(cfg, s, n + 1)
  {
    hide At, Step, MaxTrail, Hit, Consistent, Observed, Awaited;
    var o, o' := At(cfg, s, n), At(cfg, s, n + 1);
    StepFields(cfg, o, s[n]);
    HitMeans(cfg, s, n, o'.state, Awaited(cfg, o'.state));
    if o'.state == o.state {
      TrailStep(cfg, s, n, o.driftRun, o.state, Awaited(cfg, o.state));
    } else {
      TrailBroken(cfg, s, n, o'.state, Awaited(cfg, o'.state));
      HitMeans(cfg, s, n, InEpisode, Any);
      TrailBroken(cfg, s, n, InEpisode, Any);
    }
  }

  lemma CountsInside(cfg: Config, s: seq<Sample>, n: nat)
    requires n < |s| && Counts(cfg, s, n) && At(cfg, s, n).state == InEpisode
    requires Consistent(cfg, At(cfg, s, n + 1)) && At(cfg, s, n + 1) == Step(cfg, At(cfg, s, n), s[n].ordinal, s[n].value).0
    ensures Counts(cfg, s, n + 1)
  {
    hide At, Step, MaxTrail, Hit, Consistent, Observed, Awaited;
    var o, o' := At(cfg, s, n), At(cfg, s, n + 1);
    var inside: nat :| MaxTrail(cfg, s, n, inside, InEpisode, Any)
      && o.dwell == (if inside + 1 > 0xFFFF_FFFF then 0xFFFF_FFFF else inside + 1);
    StepFieldsInside(cfg, o, s[n]);
    HitMeans(cfg, s, n, o'.state, Awaited(cfg, o'.state));
    HitMeans(cfg, s, n, InEpisode, Any);
    if o'.state == InEpisode {
      TrailStep(cfg, s, n, o.recoverRun, InEpisode, Awaited(cfg, InEpisode));
      TrailStep(cfg, s, n, inside, InEpisode, Any);
    } else {
      TrailBroken(cfg, s, n, o'.state, Awaited(cfg, o'.state));
    }
  }

  lemma {:induction false} RunCounts(cfg: Config, s: seq<Sample>, n: nat)
    requires n <= |s|
    ensures Counts(cfg, s, n)
  {
    hide Counts;
    if n == 0 {
      NothingCounted(cfg, s);
    } else {
      RunCounts(cfg, s, n - 1);
      CountsStep(cfg, s, n - 1);
    }
  }

  // ---- The deviation in Drift ----

  /** The sample the deviation is measured from: the last one that closed an episode, or the first. */
  function Nominal(cfg: Config, s: seq<Sample>, n: nat): (k: nat)
    requires n <= |s|
    ensures n > 0 ==> k < n
  {
    if n <= 1 then 0
    else if At(cfg, s, n - 1).state == InEpisode && At(cfg, s, n).state != InEpisode then n - 1
    else Nominal(cfg, s, n - 1)
  }

  ghost predicate Measured(cfg: Config, s: seq<Sample>, n: nat)
    requires 0 < n <= |s|
  {
    At(cfg, s, n).previous == Some(s[n - 1].value)
    && At(cfg, s, n).cumulative == s[n - 1].value - s[Nominal(cfg, s, n)].value
  }

  lemma {:induction false} DeviationIsMeasured(cfg: Config, s: seq<Sample>, n: nat)
    requires Proper(s) && 0 < n <= |s|
    ensures Measured(cfg, s, n)
  {
    hide At, Step;
    if n == 1 {
      FirstIsNominal(cfg, s);
    } else {
      DeviationIsMeasured(cfg, s, n - 1);
      RunCounts(cfg, s, n - 1);
      MeasuredStep(cfg, s, n - 1);
    }
  }

  lemma FirstIsNominal(cfg: Config, s: seq<Sample>)
    requires |s| > 0
    ensures Measured(cfg, s, 1)
  {
    hide NextEma, Config.DriftFixed, Config.RecoveryFixed;
    NextSnapshot(cfg, s, 0);
    assert At(cfg, s, 0) == FRESH;
  }

  lemma ObservedDifference(cfg: Config, s: seq<Sample>, n: nat)
    requires Proper(s) && 0 < n < |s| && Measured(cfg, s, n)
    ensures Observed(cfg, At(cfg, s, n), s[n].value).cumulative == s[n].value - s[Nominal(cfg, s, n)].value
  {
    hide At, NextEma, Nominal;
    assert s[n - 1].value - s[Nominal(cfg, s, n)].value + (s[n].value - s[n - 1].value) == s[n].value - s[Nominal(cfg, s, n)].value;
  }

  lemma MeasuredStep(cfg: Config, s: seq<Sample>, n: nat)
    requires Proper(s) && 0 < n < |s| && Measured(cfg, s, n) && Counts(cfg, s, n)
    ensures Measured(cfg, s, n + 1)
  {
    hide At, Step, Observed, MaxTrail, Awaited;
    var o, x := At(cfg, s, n), s[n];
    NextSnapshot(cfg, s, n);
    ObservedDifference(cfg, s, n);
    StepAverages(cfg, o, x.ordinal, x.value);
    if o.state == InEpisode {
      StepFieldsInside(cfg, o, x);
    } else {
      StepFields(cfg, o, x);
    }
  }

  // ---- The law ----

  /** The last samples, one whole dwell of them, were all taken in the state and on its awaited side. */
  ghost predicate DwellComplete(cfg: Config, s: seq<Sample>, n: nat, state: State)
    requires n < |s|
  {
    Trailing(cfg, s, n + 1, AtLeastOne(if state == InEpisode then cfg.recoveryDwell else cfg.driftDwell), state,
             Awaited(cfg, state))
  }

  /** The last samples, up to the dwell cap counting the onset, were all taken in the episode. */
  ghost predicate CapReached(cfg: Config, s: seq<Sample>, n: nat)
    requires n < |s|
  {
    Trailing(cfg, s, n + 1, AtLeastOne(if cfg.maxDwell == 0 then 0 else cfg.maxDwell - 1), InEpisode, Any)
  }

  lemma CompleteMeans(cfg: Config, s: seq<Sample>, n: nat)
    requires n < |s| && Counts(cfg, s, n)
    ensures var o := At(cfg, s, n);
      var hit := Awaited(cfg, o.state).Holds(Observed(cfg, o, s[n].value).ema);
      && (o.state != InEpisode ==> (DwellComplete(cfg, s, n, o.state) <==> hit && o.driftRun + 1 >= cfg.driftDwell))
      && (o.state == InEpisode ==>
           && (DwellComplete(cfg, s, n, InEpisode) <==> hit && o.recoverRun + 1 >= cfg.recoveryDwell)
           && (CapReached(cfg, s, n) <==> (if o.dwell == 0xFFFF_FFFF then o.dwell else o.dwell + 1) >= cfg.maxDwell))
  {
    hide At, MaxTrail, Hit, Consistent, Observed, Awaited, Trailing;
    var o, side := At(cfg, s, n), Awaited(cfg, At(cfg, s, n).state);
    var k := if o.state == InEpisode then o.recoverRun else o.driftRun;
    HitMeans(cfg, s, n, o.state, side);
    HitMeans(cfg, s, n, InEpisode, Any);
    TrailStep(cfg, s, n, k, o.state, side);
    var k' := if Hit(cfg, s, n, o.state, side) then k + 1 else 0;
    TrailMeans(cfg, s, n + 1, k', AtLeastOne(if o.state == InEpisode then cfg.recoveryDwell else cfg.driftDwell), o.state, side);
    if o.state == InEpisode {
      var inside: nat :| MaxTrail(cfg, s, n, inside, InEpisode, Any)
        && o.dwell == (if inside + 1 > 0xFFFF_FFFF then 0xFFFF_FFFF else inside + 1);
      TrailStep(cfg, s, n, inside, InEpisode, Any);
      TrailMeans(cfg, s, n + 1, inside + 1, AtLeastOne(if cfg.maxDwell == 0 then 0 else cfg.maxDwell - 1), InEpisode, Any);
    }
  }

  /** Main result: in any run with consecutive ordinals and unclamped steps, the state after every sample. Stable is left
      for Drift, and Drift and Recovering for Stable, exactly when a whole drift dwell is complete. In Drift, a sample that
      does not complete it opens an episode if and only if its deviation reaches the episode threshold, with that sample
      as the onset. An episode closes exactly when a whole recovery dwell is complete or the dwell cap is reached, the
      first reason given precedence. */
  lemma StateLaw(cfg: Config, s: seq<Sample>, n: nat)
    requires Proper(s) && n < |s|
    ensures var before, after := At(cfg, s, n), At(cfg, s, n + 1);
      var complete := DwellComplete(cfg, s, n, before.state);
      var (earlier, now) := (Run(cfg, FRESH, s[..n]).1, Run(cfg, FRESH, s[..n + 1]).1);
      match before.state
      case Stable => after.state == (if complete then Drift else Stable) && now == earlier
      case Recovering => after.state == (if complete then Stable else Recovering) && now == earlier
      case Drift =>
        && n > 0 && now == earlier
        && after.state == (if complete then Stable
                           else if Dev(s, Nominal(cfg, s, n), n) >= cfg.episodeThreshold then InEpisode
                           else Drift)
        && (after.state == InEpisode ==> after.open && after.onsetOrdinal == s[n].ordinal)
      case InEpisode =>
        if complete || CapReached(cfg, s, n) then
          && after.state == Recovering && |now| == |earlier| + 1 && now[..|earlier|] == earlier
          && now[|earlier|].closedBy == (if complete then RecoveryDwell else MaxDwell)
        else after.state == InEpisode && now == earlier
  {
    hide At, Step, Observed, MaxTrail, Awaited, Run, Nominal;
    var o, x := At(cfg, s, n), s[n];
    RunCounts(cfg, s, n);
    NextSnapshot(cfg, s, n);
    CompleteMeans(cfg, s, n);
    StepKeepsConsistent(cfg, o, x.ordinal, x.value);
    hide DwellComplete, CapReached, Counts;
    if o.state == InEpisode {
      StepFieldsInside(cfg, o, x);
    } else {
      StepFields(cfg, o, x);
      if o.state == Drift {
        NotFresh(cfg, s, n);
        DeviationIsMeasured(cfg, s, n);
        ObservedDifference(cfg, s, n);
      }
    }
  }

  lemma NotFresh(cfg: Config, s: seq<Sample>, n: nat)
    requires n <= |s| && At(cfg, s, n).state != Stable
    ensures n > 0
  {
    hide Step, At;
    StartsFresh(cfg, s);
  }

  lemma StartsFresh(cfg: Config, s: seq<Sample>)
    ensures At(cfg, s, 0) == FRESH
  {
  }
}
