/**
 The regime observer of one signal: an integer moving average of the signal's steps drives
 a four-state machine that turns sustained drift into closed episodes. Every saturating
 and clamping operation of the 64-bit code is written out.
 */
module Regime {
  import opened Wrappers
  import opened Arithmetic
  import opened Words

  /** Thresholds are in units of the signal; dwells are in samples. */
  datatype Config = Config(
    emaShift: nat,
    driftThreshold: i64,
    driftDwell: u32,
    episodeThreshold: u64,
    recoveryThreshold: i64,
    recoveryDwell: u32,
    maxDwell: u32)
  {
    /** `1i64 << shift` is a 64-bit number. */
    predicate Valid() {
      emaShift <= 63
    }

    /** `1i64 << shift` is positive. */
    predicate Positive() {
      emaShift <= 62
    }

    function Scale(): (s: int)
      ensures s > 0
    {
      Pow2(emaShift)
    }

    /** `1i64 << shift`: the top bit is the sign. */
    function Factor(): int {
      if emaShift == 63 then -Scale() else Scale()
    }

    /** The thresholds in fixed point. */
    function DriftFixed(): nat {
      Abs(ToI64(driftThreshold * Factor()))
    }

    function RecoveryFixed(): nat {
      Abs(ToI64(recoveryThreshold * Factor()))
    }
  }

  datatype State = Stable | Drift | InEpisode | Recovering

  datatype EpisodeClose = RecoveryDwell | MaxDwell

  /** A closed episode; its signal and configuration are the caller's. */
  datatype Episode = Episode(
    onsetOrdinal: u64,
    peakOrdinal: u64,
    peakValue: u64,
    peakDeviation: u64,
    closeOrdinal: u64,
    dwell: u32,
    closedBy: EpisodeClose,
    peakEma: i64)

  /** The observer's fields. */
  datatype Snapshot = Snapshot(
    state: State,
    ema: i64,
    cumulative: int,
    baseline: Option<u64>,
    previous: Option<u64>,
    driftRun: nat,
    recoverRun: nat,
    dwell: u32,
    onsetOrdinal: u64,
    peakOrdinal: u64,
    peakValue: u64,
    peakDeviation: u64,
    peakEma: i64,
    open: bool)

  const FRESH: Snapshot := Snapshot(Stable, 0, 0, None, None, 0, 0, 0, 0, 0, 0, 0, 0, false)

  // ---- One sample, as a function ----

  /** The step since the previous sample, clamped to 64 bits; 0 for the first sample. */
  function Residual(o: Snapshot, value: u64): i64 {
    if o.previous.None? then 0 else ToI64(value - o.previous.value)
  }

  /** ema - (ema >> shift) + step * (1 << shift), saturating; the right shift floors. */
  function NextEma(cfg: Config, ema: i64, step: i64): i64 {
    ToI64(ToI64(ema - ema / cfg.Scale()) + ToI64(step * cfg.Factor()))
  }

  /** The averages after one sample, before the state machine moves. */
  function Observed(cfg: Config, o: Snapshot, value: u64): Snapshot {
    o.(baseline := if o.baseline.None? then Some(value) else o.baseline,
       previous := Some(value),
       ema := NextEma(cfg, o.ema, Residual(o, value)),
       cumulative := ToI128(o.cumulative + Residual(o, value)))
  }

  /** Counts samples with `hit`; when the run reaches `dwell` it restarts and the state moves. */
  function Dwelt(o: Snapshot, hit: bool, dwell: u32, to: State): Snapshot {
    if !hit then o.(driftRun := 0)
    else if o.driftRun + 1 >= dwell then o.(driftRun := 0, state := to)
    else o.(driftRun := o.driftRun + 1)
  }

  function Opened(cfg: Config, o: Snapshot, ordinal: u64, value: u64): Snapshot {
    if o.open || Abs(o.cumulative) < cfg.episodeThreshold then o
    else
      o.(open := true, state := InEpisode, dwell := 1, recoverRun := 0, onsetOrdinal := ordinal,
         peakOrdinal := ordinal, peakValue := value, peakDeviation := Truncated(Abs(o.cumulative)),
         peakEma := o.ema)
  }

  /** The peak moves only to a strictly larger deviation. */
  function Peaked(o: Snapshot, ordinal: u64, value: u64): Snapshot {
    var dev := Truncated(Abs(o.cumulative));
    var p := if dev > o.peakDeviation
             then o.(peakDeviation := dev, peakOrdinal := ordinal, peakValue := value) else o;
    if Abs(o.ema) > Abs(o.peakEma) then p.(peakEma := o.ema) else p
  }

  function Closed(o: Snapshot, value: u64): Snapshot {
    o.(open := false, state := Recovering, recoverRun := 0, driftRun := 0, dwell := 0,
       cumulative := 0, baseline := Some(value))
  }

  function ToEpisode(o: Snapshot, reason: EpisodeClose, ordinal: u64): Episode {
    Episode(o.onsetOrdinal, o.peakOrdinal, o.peakValue, o.peakDeviation, ordinal, o.dwell, reason, o.peakEma)
  }

  /** Why the sample just counted into an open episode closes it, if it does. */
  function CloseReason(cfg: Config, o: Snapshot): Option<EpisodeClose> {
    if Abs(o.ema) < cfg.RecoveryFixed() && o.recoverRun >= cfg.recoveryDwell then Some(RecoveryDwell)
    else if o.dwell >= cfg.maxDwell then Some(MaxDwell)
    else None
  }

  /** A sample inside an episode: dwell, peak and recovery run move. */
  function Counted(cfg: Config, o: Snapshot, ordinal: u64, value: u64): Snapshot {
    var p := Peaked(o.(dwell := Clamp(o.dwell + 1, 0, 0xFFFF_FFFF)), ordinal, value);
    p.(recoverRun := if Abs(o.ema) < cfg.RecoveryFixed() then o.recoverRun + 1 else 0)
  }

  /** `RegimeObserver::feed`. */
  function Step(cfg: Config, before: Snapshot, ordinal: u64, value: u64): (Snapshot, Option<Episode>) {
    var o := Observed(cfg, before, value);
    var drifting := Abs(o.ema) >= cfg.DriftFixed();
    match o.state
    case Stable => (Dwelt(o, drifting, cfg.driftDwell, Drift), None)
    case Drift =>
      var d := Dwelt(o, !drifting, cfg.driftDwell, Stable);
      (if d.state == Drift then Opened(cfg, d, ordinal, value) else d, None)
    case InEpisode =>
      var c := Counted(cfg, o, ordinal, value);
      (match CloseReason(cfg, c)
       case None => (c, None)
       case Some(reason) => (Closed(c, value), Some(ToEpisode(c, reason, ordinal))))
    case Recovering =>
      var d := Dwelt(o, !drifting, cfg.driftDwell, Stable);
      (if d.state == Stable then d.(recoverRun := 0) else d, None)
  }

  // ---- Runs ----

  datatype Sample = Sample(ordinal: u64, value: u64)

  function Run(cfg: Config, from: Snapshot, series: seq<Sample>): (Snapshot, seq<Episode>) {
    if series == [] then (from, [])
    else
      var n := |series| - 1;
      var (o, eps) := Run(cfg, from, series[..n]);
      var (o', closed) := Step(cfg, o, series[n].ordinal, series[n].value);
      (o', if closed.Some? then eps + [closed.value] else eps)
  }

  /** The bookkeeping every reachable observer keeps. */
  ghost predicate Consistent(cfg: Config, o: Snapshot) {
    && (o.open <==> o.state == InEpisode)
    && (o.driftRun == 0 || o.driftRun < cfg.driftDwell)
    && (o.recoverRun == 0 || o.recoverRun < cfg.recoveryDwell)
    && (o.previous.None? ==> o == FRESH)
    && -TWO_127 <= o.cumulative < TWO_127
  }

  lemma StepKeepsConsistent(cfg: Config, o: Snapshot, ordinal: u64, value: u64)
    requires Consistent(cfg, o)
    ensures Consistent(cfg, Step(cfg, o, ordinal, value).0)
    ensures Step(cfg, o, ordinal, value).1.Some? ==> o.state == InEpisode
  {
    hide NextEma, Config.Scale, Config.Factor, Config.DriftFixed, Config.RecoveryFixed;
  }

  /** The state machine never touches the averages. */
  lemma StepAverages(cfg: Config, o: Snapshot, ordinal: u64, value: u64)
    ensures var o' := Step(cfg, o, ordinal, value).0;
      o'.previous == Some(value) && o'.ema == NextEma(cfg, o.ema, Residual(o, value))
  {
    hide NextEma, Residual, Config.Scale, Config.Factor, Config.DriftFixed, Config.RecoveryFixed;
  }

  lemma {:induction false} RunConsistent(cfg: Config, series: seq<Sample>)
    ensures Consistent(cfg, Run(cfg, FRESH, series).0)
  {
    hide Step;
    if series != [] {
      var n := |series| - 1;
      RunConsistent(cfg, series[..n]);
      StepKeepsConsistent(cfg, Run(cfg, FRESH, series[..n]).0, series[n].ordinal, series[n].value);
    }
  }

  // ---- The code ----

  class RegimeObserver {
    const cfg: Config
    var state: State
    var emaFixed: i64
    var cumulative: int
    var baseline: Option<u64>
    var prevValue: Option<u64>
    var driftRun: nat
    var recoverRun: nat
    var dwell: u32
    var onsetOrdinal: u64
    var peakOrdinal: u64
    var peakValue: u64
    var peakDeviation: u64
    var peakEmaFixed: i64
    var episodeOpen: bool

    function Value(): Snapshot
      reads this
    {
      Snapshot(state, emaFixed, cumulative, baseline, prevValue, driftRun, recoverRun, dwell,
               onsetOrdinal, peakOrdinal, peakValue, peakDeviation, peakEmaFixed, episodeOpen)
    }

    constructor (cfg: Config)
      requires cfg.Valid()
      ensures this.cfg == cfg && Value() == FRESH
    {
      this.cfg := cfg;
      state, emaFixed, cumulative, baseline, prevValue := Stable, 0, 0, None, None;
      driftRun, recoverRun, dwell := 0, 0, 0;
      onsetOrdinal, peakOrdinal, peakValue, peakDeviation, peakEmaFixed := 0, 0, 0, 0, 0;
      episodeOpen := false;
    }

    method Feed(ordinal: u64, value: u64) returns (closed: Option<Episode>)
      modifies this
      ensures (Value(), closed) == Step(cfg, old(Value()), ordinal, value)
    {
      hide Observed, Peaked, Truncated;
      Observe(value);
      var driftFixed := Abs(ToI64(cfg.driftThreshold * cfg.Factor()));
      closed := None;
      match state {
        case Stable =>
          CountRun(Abs(emaFixed) >= driftFixed, Drift);
        case Drift =>
          CountRun(Abs(emaFixed) < driftFixed, Stable);
          if state == Drift {
            MaybeOpenEpisode(ordinal, value);
          }
        case InEpisode =>
          closed := FeedEpisode(ordinal, value);
        case Recovering =>
          CountRun(Abs(emaFixed) < driftFixed, Stable);
          if state == Stable {
            recoverRun := 0;
          }
      }
    }

    /** The averages at the head of `feed`. */
    method Observe(value: u64)
      modifies this
      ensures Value() == Observed(cfg, old(Value()), value)
    {
      if baseline.None? {
        baseline := Some(value);
      }
      var r: i64 := 0;
      if prevValue.Some? {
        r := ToI64(value - prevValue.value);
      }
      prevValue := Some(value);
      emaFixed := ToI64(ToI64(emaFixed - emaFixed / cfg.Scale()) + ToI64(r * cfg.Factor()));
      cumulative := ToI128(cumulative + r);
    }

    /** The run counting that three arms of `feed` share. */
    method CountRun(hit: bool, to: State)
      modifies this
      ensures Value() == Dwelt(old(Value()), hit, cfg.driftDwell, to)
    {
      if hit {
        driftRun := driftRun + 1;
        if driftRun >= cfg.driftDwell {
          state, driftRun := to, 0;
        }
      } else {
        driftRun := 0;
      }
    }

    /** The in-episode arm of `feed`. */
    method FeedEpisode(ordinal: u64, value: u64) returns (closed: Option<Episode>)
      modifies this
      ensures var c := Counted(cfg, old(Value()), ordinal, value);
        match CloseReason(cfg, c)
        case None => Value() == c && closed == None
        case Some(reason) => Value() == Closed(c, value) && closed == Some(ToEpisode(c, reason, ordinal))
    {
      hide Truncated;
      closed := None;
      var recoveryFixed := cfg.RecoveryFixed();
      dwell := Clamp(dwell + 1, 0, 0xFFFF_FFFF);
      UpdatePeak(ordinal, value);
      if Abs(emaFixed) < recoveryFixed {
        recoverRun := recoverRun + 1;
      } else {
        recoverRun := 0;
      }
      if Abs(emaFixed) < recoveryFixed && recoverRun >= cfg.recoveryDwell {
        var e := Close(RecoveryDwell, ordinal, value);
        closed := Some(e);
      } else if dwell >= cfg.maxDwell {
        var e := Close(MaxDwell, ordinal, value);
        closed := Some(e);
      }
    }

    method MaybeOpenEpisode(ordinal: u64, value: u64)
      modifies this
      ensures Value() == Opened(cfg, old(Value()), ordinal, value)
    {
      hide Truncated;
      if episodeOpen {
        return;
      }
      var dev := Abs(cumulative);
      if dev >= cfg.episodeThreshold {
        episodeOpen, state, dwell, recoverRun := true, InEpisode, 1, 0;
        onsetOrdinal, peakOrdinal, peakValue := ordinal, ordinal, value;
        peakDeviation, peakEmaFixed := Truncated(dev), emaFixed;
      }
    }

    method UpdatePeak(ordinal: u64, value: u64)
      modifies this
      ensures Value() == Peaked(old(Value()), ordinal, value)
    {
      var dev := Abs(cumulative);
      if Truncated(dev) > peakDeviation {
        peakDeviation, peakOrdinal, peakValue := Truncated(dev), ordinal, value;
      }
      if Abs(emaFixed) > Abs(peakEmaFixed) {
        peakEmaFixed := emaFixed;
      }
    }

    method Close(reason: EpisodeClose, ordinal: u64, value: u64) returns (episode: Episode)
      modifies this
      ensures Value() == Closed(old(Value()), value)
      ensures episode == ToEpisode(old(Value()), reason, ordinal)
    {
      episode := Episode(onsetOrdinal, peakOrdinal, peakValue, peakDeviation, ordinal, dwell, reason, peakEmaFixed);
      episodeOpen, state, recoverRun, driftRun, dwell := false, Recovering, 0, 0, 0;
      cumulative, baseline := 0, Some(value);
    }
  }

  /** `run_series`. */
  method RunSeries(cfg: Config, series: seq<Sample>) returns (state: State, episodes: seq<Episode>)
    requires cfg.Valid()
    ensures (state, episodes) == (Run(cfg, FRESH, series).0.state, Run(cfg, FRESH, series).1)
  {
    var observer := new RegimeObserver(cfg);
    episodes := [];
    for i := 0 to |series|
      invariant observer.cfg == cfg
      invariant (observer.Value(), episodes) == Run(cfg, FRESH, series[..i])
    {
      assert series[..i + 1][..i] == series[..i];
      var closed := observer.Feed(series[i].ordinal, series[i].value);
      if closed.Some? {
        episodes := episodes + [closed.value];
      }
    }
    assert series[..|series|] == series;
    state := observer.state;
  }
}
