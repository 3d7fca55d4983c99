/**
 The calibration of one axis, over exact reals: the first values decide whether the axis gets an envelope or is
 discrete, and no value inside the calibrated segment can look like a departure from it.
 The square root is a parameter.
 */
module Calibration {
  import opened Wrappers
  import opened Words

  datatype Config = Config(windows: u64, multiplier: real)

  datatype Stream = Stream(calib: seq<u64>, mean: real, rho: real, calibrated: bool, discrete: bool)

  const NEW: Stream := Stream([], 0.0, 0.0, false, false)

  /** What is used of the square root. */
  ghost predicate IsRoot(sqrt: real -> real) {
    sqrt(0.0) == 0.0 && forall v | v > 0.0 :: sqrt(v) > 0.0
  }

  // ---- Mean and deviation ----

  function Sum(values: seq<u64>): real {
    if values == [] then 0.0 else Sum(values[..|values| - 1]) + values[|values| - 1] as real
  }

  function Product(a: real, b: real): real {
    a * b
  }

  function Square(d: real): real {
    Product(d, d)
  }

  function SquareSum(values: seq<u64>, mean: real): real {
    if values == [] then 0.0
    else SquareSum(values[..|values| - 1], mean) + Square(values[|values| - 1] as real - mean)
  }

  /** The mean, and the sample deviation: 0 for a single value. */
  function MeanSigma(values: seq<u64>, sqrt: real -> real): (r: Option<(real, real)>)
    ensures r.Some? <==> values != []
  {
    if values == [] then None
    else
      var n := |values| as real;
      var mean := Sum(values) / n;
      Some((mean, if |values| < 2 then 0.0 else sqrt(SquareSum(values, mean) / (n - 1.0))))
  }

  function Largest(values: seq<u64>): u64
    requires values != []
  {
    if |values| == 1 then values[0]
    else
      var before := Largest(values[..|values| - 1]);
      if values[|values| - 1] > before then values[|values| - 1] else before
  }

  function Smallest(values: seq<u64>): u64
    requires values != []
  {
    if |values| == 1 then values[0]
    else
      var before := Smallest(values[..|values| - 1]);
      if values[|values| - 1] < before then values[|values| - 1] else before
  }

  predicate Constant(values: seq<u64>) {
    forall i | 0 <= i < |values| :: values[i] == values[0]
  }

  lemma {:induction false} Extremes(values: seq<u64>)
    requires values != []
    ensures Smallest(values) in values && Largest(values) in values
    ensures forall i | 0 <= i < |values| :: Smallest(values) <= values[i] <= Largest(values)
  {
    if |values| > 1 {
      var before := values[..|values| - 1];
      Extremes(before);
      assert values == before + [values[|values| - 1]];
    }
  }

  lemma ConstantMeansNoSpan(values: seq<u64>)
    requires values != []
    ensures Constant(values) <==> Largest(values) == Smallest(values)
  {
    Extremes(values);
  }

  function Times(k: nat, e: real): real {
    k as real * e
  }

  lemma OneMore(k: nat, e: real)
    ensures Times(k + 1, e) == Times(k, e) + e && Times(0, e) == 0.0
  {
    assert (k + 1) as real == k as real + 1.0;
  }

  /** The sum lies between n times a lower bound and n times an upper bound, strictly if some value does. */
  lemma {:induction false} SumBetween(values: seq<u64>, lo: real, hi: real)
    requires forall i | 0 <= i < |values| :: lo <= values[i] as real <= hi
    ensures Times(|values|, lo) <= Sum(values) <= Times(|values|, hi)
    ensures (exists i :: 0 <= i < |values| && lo < values[i] as real) ==> Times(|values|, lo) < Sum(values)
    ensures (exists i :: 0 <= i < |values| && values[i] as real < hi) ==> Sum(values) < Times(|values|, hi)
  {
    hide Times;
    if values == [] {
      OneMore(0, lo);
      OneMore(0, hi);
    } else {
      var n := |values| - 1;
      var before := values[..n];
      SumBetween(before, lo, hi);
      OneMore(n, lo);
      OneMore(n, hi);
      assert forall i | 0 <= i < n :: before[i] == values[i];
      assert Times(|values|, lo) == Times(n, lo) + lo && Times(|values|, hi) == Times(n, hi) + hi;
    }
  }

  /** The mean of values that are not all equal lies strictly between the extremes. */
  lemma MeanIsInside(values: seq<u64>, sqrt: real -> real)
    requires values != [] && !Constant(values)
    ensures var mean := MeanSigma(values, sqrt).value.0;
      Smallest(values) as real < mean < Largest(values) as real
  {
    var lo, hi := Smallest(values) as real, Largest(values) as real;
    SomeInside(values);
    hide Sum, Largest, Smallest, Times;
    SumBetween(values, lo, hi);
    QuotientInside(Sum(values), |values|, lo, hi);
  }

  lemma SomeInside(values: seq<u64>)
    requires values != [] && !Constant(values)
    ensures forall i | 0 <= i < |values| :: Smallest(values) as real <= values[i] as real <= Largest(values) as real
    ensures exists i :: 0 <= i < |values| && Smallest(values) as real < values[i] as real
    ensures exists i :: 0 <= i < |values| && values[i] as real < Largest(values) as real
  {
    Extremes(values);
    ConstantMeansNoSpan(values);
    hide Largest, Smallest;
    var i :| 0 <= i < |values| && values[i] == Largest(values);
    var j :| 0 <= j < |values| && values[j] == Smallest(values);
    assert Smallest(values) as real < values[i] as real && values[j] as real < Largest(values) as real;
  }

  lemma QuotientInside(s: real, n: nat, lo: real, hi: real)
    requires n > 0 && Times(n, lo) < s < Times(n, hi)
    ensures lo < s / n as real < hi
  {
    var q := s / n as real;
    assert Times(n, q) == s;
    if q <= lo { TimesMonotone(n, q, lo); }
    if q >= hi { TimesMonotone(n, hi, q); }
  }

  lemma TimesMonotone(n: nat, a: real, b: real)
    requires a <= b
    ensures Times(n, a) <= Times(n, b)
  {
    assert Times(n, b) - Times(n, a) == n as real * (b - a);
  }

  lemma {:induction false} SquareSumSign(values: seq<u64>, mean: real)
    ensures SquareSum(values, mean) >= 0.0
    ensures SquareSum(values, mean) == 0.0 <==> forall i | 0 <= i < |values| :: values[i] as real == mean
  {
    if values != [] {
      var n := |values| - 1;
      SquareSumSign(values[..n], mean);
      SquareSign(values[n] as real - mean);
      assert values == values[..n] + [values[n]];
      hide Square;
      if SquareSum(values, mean) == 0.0 {
        forall i | 0 <= i < |values| ensures values[i] as real == mean {
          assert i < n ==> values[i] == values[..n][i];
        }
      }
    }
  }

  lemma SquareSign(d: real)
    ensures Square(d) >= 0.0 && (Square(d) == 0.0 <==> d == 0.0)
  {
    hide Product;
    if d == 0.0 {
      ProductOfZero(d);
    } else if d > 0.0 {
      ProductPositive(d, d);
    } else {
      ProductPositive(-d, -d);
      ProductNegated(d);
    }
  }

  lemma ProductPositive(a: real, b: real)
    requires a > 0.0 && b > 0.0
    ensures Product(a, b) > 0.0
  {
  }

  lemma ProductNegated(d: real)
    ensures Product(-d, -d) == Product(d, d)
  {
  }

  lemma ProductOfZero(d: real)
    requires d == 0.0
    ensures Product(d, d) == 0.0
  {
    assert 0.0 * 0.0 == 0.0;
  }

  // ---- The envelope law ----

  function RMax(a: real, b: real): real {
    if a > b then a else b
  }

  /** rho = max(3 sigma, multiplier * span). */
  function Radius(cfg: Config, values: seq<u64>, sigma: real): real
    requires values != []
  {
    RMax(3.0 * sigma, cfg.multiplier * (Largest(values) - Smallest(values)) as real)
  }

  /** `max_calibration`: twice the windows, saturating, and at least 3. */
  function MaxCalibration(cfg: Config): nat {
    var doubled := if 2 * cfg.windows > 0xFFFF_FFFF_FFFF_FFFF then 0xFFFF_FFFF_FFFF_FFFF else 2 * cfg.windows;
    if doubled > 3 then doubled else 3
  }

  /** `maybe_finalize`. */
  function Finalized(cfg: Config, s: Stream, sqrt: real -> real): Stream {
    if |s.calib| < cfg.windows || s.calib == [] then s
    else
      var (mean, sigma) := MeanSigma(s.calib, sqrt).value;
      var rho := Radius(cfg, s.calib, sigma);
      if rho > 0.0 then s.(mean := mean, rho := rho, calibrated := true, discrete := false)
      else if |s.calib| >= MaxCalibration(cfg) then s.(discrete := true, calibrated := false)
      else s
  }

  /** The calibration part of `push`. */
  function Pushed(cfg: Config, s: Stream, value: u64, sqrt: real -> real): Stream {
    if s.calibrated || s.discrete then s else Finalized(cfg, s.(calib := s.calib + [value]), sqrt)
  }

  class AxisStream {
    var calib: seq<u64>
    var mean: real
    var rho: real
    var calibrated: bool
    var discrete: bool

    function Value(): Stream
      reads this
    {
      Stream(calib, mean, rho, calibrated, discrete)
    }

    constructor ()
      ensures Value() == NEW
    {
      calib, mean, rho, calibrated, discrete := [], 0.0, 0.0, false, false;
    }

    /** Takes one value. The result says whether the value is still part of the calibration segment. */
    method Push(cfg: Config, value: u64, sqrt: real -> real) returns (calibrating: bool)
      modifies this
      ensures Value() == Pushed(cfg, old(Value()), value, sqrt)
      ensures calibrating <==> !calibrated && !old(discrete)
    {
      if !calibrated && !discrete {
        calib := calib + [value];
        MaybeFinalize(cfg, sqrt);
        return !calibrated;
      }
      return false;
    }

    method MaybeFinalize(cfg: Config, sqrt: real -> real)
      modifies this
      ensures Value() == Finalized(cfg, old(Value()), sqrt)
    {
      if |calib| < cfg.windows {
        return;
      }
      var moments := SegmentMoments(calib, sqrt);
      if moments.None? {
        return;
      }
      var (m, sigma) := moments.value;
      var r := Radius(cfg, calib, sigma);
      if r > 0.0 {
        mean, rho, calibrated, discrete := m, r, true, false;
      } else if |calib| >= MaxCalibration(cfg) {
        discrete, calibrated := true, false;
      }
    }
  }

  /** `mean_sigma`, with its two sums as loops. */
  method SegmentMoments(values: seq<u64>, sqrt: real -> real) returns (r: Option<(real, real)>)
    ensures r == MeanSigma(values, sqrt)
  {
    if |values| == 0 {
      return None;
    }
    var n := |values| as real;
    var sum := 0.0;
    for i := 0 to |values|
      invariant sum == Sum(values[..i])
    {
      assert values[..i + 1][..i] == values[..i];
      sum := sum + values[i] as real;
    }
    assert values[..|values|] == values;
    var mean := sum / n;
    if |values| < 2 {
      return Some((mean, 0.0));
    }
    var squares := 0.0;
    for i := 0 to |values|
      invariant squares == SquareSum(values[..i], mean)
    {
      assert values[..i + 1][..i] == values[..i];
      squares := squares + Square(values[i] as real - mean);
    }
    return Some((mean, sqrt(squares / (n - 1.0))));
  }

  // ---- What the law promises ----

  /** The radius is positive exactly when the segment varies, whatever the multiplier. */
  lemma RadiusSign(cfg: Config, values: seq<u64>, sqrt: real -> real)
    requires values != [] && IsRoot(sqrt)
    ensures Radius(cfg, values, MeanSigma(values, sqrt).value.1) > 0.0 <==> !Constant(values)
  {
    hide Sum, SquareSum, Largest, Smallest, Constant;
    var (mean, sigma) := MeanSigma(values, sqrt).value;
    SquareSumSign(values, mean);
    ConstantMeansNoSpan(values);
    if Constant(values) {
      MeanOfConstant(values);
      assert cfg.multiplier * 0.0 == 0.0;
      if |values| >= 2 {
        ZeroOver(|values| as real - 1.0);
      }
    } else {
      NotAllMean(values, mean);
      assert |values| >= 2;
      Positive(SquareSum(values, mean), |values| as real - 1.0);
    }
  }

  lemma Positive(a: real, b: real)
    requires a > 0.0 && b > 0.0
    ensures a / b > 0.0
  {
  }

  lemma ZeroOver(b: real)
    requires b > 0.0
    ensures 0.0 / b == 0.0
  {
  }

  lemma MeanOfConstant(values: seq<u64>)
    requires values != [] && Constant(values)
    ensures forall i | 0 <= i < |values| :: values[i] as real == Sum(values) / |values| as real
  {
    hide Sum;
    var c := values[0] as real;
    SumBetween(values, c, c);
    MeanOfEqual(Sum(values), |values| as real, c);
  }

  lemma MeanOfEqual(sum: real, n: real, c: real)
    requires n > 0.0 && n * c <= sum <= n * c
    ensures sum / n == c
  {
    CancelFactor(n, c);
  }

  lemma CancelFactor(n: real, c: real)
    requires n > 0.0
    ensures n * c / n == c
  {
  }

  lemma NotAllMean(values: seq<u64>, mean: real)
    requires values != [] && !Constant(values)
    ensures |values| >= 2 && exists i :: 0 <= i < |values| && values[i] as real != mean
  {
    var i :| 0 <= i < |values| && values[i] != values[0];
  }

  /** No value between the extremes of a calibrated segment is as far from the mean as half the radius, if the
      multiplier is at least 2: the boundary zone lies outside what the lineage has already shown. */
  lemma SegmentIsInsideEnvelope(cfg: Config, values: seq<u64>, sqrt: real -> real, v: u64)
    requires values != [] && !Constant(values) && cfg.multiplier >= 2.0
    requires Smallest(values) <= v <= Largest(values)
    ensures var (mean, sigma) := MeanSigma(values, sqrt).value;
      var distance := if v as real < mean then mean - v as real else v as real - mean;
      distance < 0.5 * Radius(cfg, values, sigma)
  {
    hide *;
    MeanIsInside(values, sqrt);
    var (mean, sigma) := MeanSigma(values, sqrt).value;
    SpanBound(cfg, values, sigma);
    HalfRadius(mean, v as real, Smallest(values) as real, Largest(values) as real, cfg.multiplier,
               Radius(cfg, values, sigma));
  }

  lemma SpanBound(cfg: Config, values: seq<u64>, sigma: real)
    requires values != []
    ensures Radius(cfg, values, sigma) >= cfg.multiplier * (Largest(values) as real - Smallest(values) as real)
  {
    hide Largest, Smallest;
    assert (Largest(values) - Smallest(values)) as real == Largest(values) as real - Smallest(values) as real;
  }

  lemma HalfRadius(mean: real, v: real, lo: real, hi: real, m: real, rho: real)
    requires lo < mean < hi && lo <= v <= hi && m >= 2.0 && rho >= m * (hi - lo)
    ensures (if v < mean then mean - v else v - mean) < 0.5 * rho
  {
    var span := hi - lo;
    assert m * span - 2.0 * span == (m - 2.0) * span;
    assert (m - 2.0) * span >= 0.0;
  }

  // ---- Runs ----

  function Run(cfg: Config, values: seq<u64>, sqrt: real -> real): Stream {
    if values == [] then NEW else Pushed(cfg, Run(cfg, values[..|values| - 1], sqrt), values[|values| - 1], sqrt)
  }

  /** The values that calibration may look at. */
  function Considered(cfg: Config, values: seq<u64>): seq<u64> {
    if |values| > MaxCalibration(cfg) then values[..MaxCalibration(cfg)] else values
  }

  /** An axis is settled by its first values: it has an envelope once it has seen enough of them and they are not all
      equal, it is discrete once the extended segment is used up and they are, and it is never both. */
  ghost predicate Settled(cfg: Config, values: seq<u64>, s: Stream) {
    var seen := Considered(cfg, values);
    && (s.calibrated <==> |seen| >= cfg.windows && !Constant(seen))
    && (s.discrete <==> |seen| == MaxCalibration(cfg) && Constant(seen))
    && s.calib <= seen && (!s.calibrated ==> s.calib == seen)
    && (s.calibrated ==> !Constant(s.calib) && |s.calib| >= cfg.windows)
  }

  lemma ConstantPrefix(values: seq<u64>, n: nat)
    requires n <= |values|
    ensures Constant(values) ==> Constant(values[..n])
  {
  }

  lemma MaxCalibrationIsLonger(cfg: Config)
    ensures MaxCalibration(cfg) >= cfg.windows && MaxCalibration(cfg) >= 3
  {
  }

  lemma PushSettles(cfg: Config, values: seq<u64>, value: u64, s: Stream, sqrt: real -> real)
    requires IsRoot(sqrt) && Settled(cfg, values, s)
    ensures Settled(cfg, values + [value], Pushed(cfg, s, value, sqrt))
  {
    var seen, more := Considered(cfg, values), values + [value];
    MaxCalibrationIsLonger(cfg);
    hide MaxCalibration, MeanSigma, Radius;
    if s.calibrated || s.discrete {
      assert seen <= Considered(cfg, more);
      assert Considered(cfg, more)[..|seen|] == seen;
      ConstantPrefix(Considered(cfg, more), |seen|);
    } else {
      assert |values| < MaxCalibration(cfg) && s.calib == values;
      assert Considered(cfg, more) == more;
      RadiusSign(cfg, more, sqrt);
    }
  }

  /** Every axis is settled by its values; in particular it is calibrated or discrete once it has seen
      `MaxCalibration` of them. */
  lemma {:induction false} CalibrationSettles(cfg: Config, values: seq<u64>, sqrt: real -> real)
    requires IsRoot(sqrt)
    ensures Settled(cfg, values, Run(cfg, values, sqrt))
    ensures var s := Run(cfg, values, sqrt);
      !(s.calibrated && s.discrete) && (|values| >= MaxCalibration(cfg) ==> s.calibrated || s.discrete)
  {
    hide MaxCalibration, Pushed, Settled, IsRoot;
    if values == [] {
      NewIsSettled(cfg);
    } else {
      var n := |values| - 1;
      CalibrationSettles(cfg, values[..n], sqrt);
      PushSettles(cfg, values[..n], values[n], Run(cfg, values[..n], sqrt), sqrt);
      assert values[..n] + [values[n]] == values;
    }
    SettledMeans(cfg, values, Run(cfg, values, sqrt));
  }

  lemma NewIsSettled(cfg: Config)
    ensures Settled(cfg, [], NEW)
  {
    MaxCalibrationIsLonger(cfg);
  }

  lemma SettledMeans(cfg: Config, values: seq<u64>, s: Stream)
    requires Settled(cfg, values, s)
    ensures !(s.calibrated && s.discrete) && (|values| >= MaxCalibration(cfg) ==> s.calibrated || s.discrete)
  {
    MaxCalibrationIsLonger(cfg);
  }

  // ---- What a calibrated axis has recorded ----

  ghost predicate IsExactRoot(sqrt: real -> real) {
    IsRoot(sqrt) && forall v | v > 0.0 :: Square(sqrt(v)) == v
  }

  /** The recorded mean and radius are those of the calibrated segment. */
  ghost predicate Recorded(cfg: Config, s: Stream, sqrt: real -> real) {
    s.calibrated ==>
      s.calib != [] && !Constant(s.calib)
      && s.mean == MeanSigma(s.calib, sqrt).value.0 && s.rho == Radius(cfg, s.calib, MeanSigma(s.calib, sqrt).value.1)
  }

  lemma {:induction false} RunRecords(cfg: Config, values: seq<u64>, sqrt: real -> real)
    requires IsRoot(sqrt)
    ensures Recorded(cfg, Run(cfg, values, sqrt), sqrt)
  {
    hide MeanSigma, Radius, Constant, MaxCalibration, IsRoot;
    if values != [] {
      var n := |values| - 1;
      var s := Run(cfg, values[..n], sqrt);
      RunRecords(cfg, values[..n], sqrt);
      RadiusSign(cfg, s.calib + [values[n]], sqrt);
    }
  }

  lemma SampleDeviation(values: seq<u64>, sqrt: real -> real)
    requires |values| >= 2 && IsExactRoot(sqrt)
    ensures var (mean, sigma) := MeanSigma(values, sqrt).value;
      && Times(|values|, mean) == Sum(values)
      && sigma >= 0.0 && Times(|values| - 1, Square(sigma)) == SquareSum(values, mean)
  {
    var (mean, sigma) := MeanSigma(values, sqrt).value;
    SquareSumSign(values, mean);
    hide Sum, SquareSum, Product;
    Divided(Sum(values), |values|);
    Divided(SquareSum(values, mean), |values| - 1);
    NonNegativeQuotient(SquareSum(values, mean), |values| as real - 1.0);
    SquareSign(0.0);
  }

  lemma Divided(a: real, n: nat)
    requires n > 0
    ensures Times(n, a / n as real) == a
  {
  }

  lemma NonNegativeQuotient(a: real, b: real)
    requires a >= 0.0 && b > 0.0
    ensures a / b >= 0.0
  {
  }

  /** Main result for the envelope of an axis: whatever it was fed, once it is calibrated its mean times the number of
      values is their sum; its radius is the larger of three sample deviations and the multiple of the span; and with a
      multiplier of at least 2 no value between the extremes is as far from the mean as half the radius. */
  lemma EnvelopeLaw(cfg: Config, values: seq<u64>, sqrt: real -> real) returns (sigma: real, lo: u64, hi: u64)
    requires IsExactRoot(sqrt) && Run(cfg, values, sqrt).calibrated
    ensures var s := Run(cfg, values, sqrt);
      && |s.calib| >= 2 && Times(|s.calib|, s.mean) == Sum(s.calib)
      && sigma >= 0.0 && Times(|s.calib| - 1, Square(sigma)) == SquareSum(s.calib, s.mean)
      && lo in s.calib && hi in s.calib && (forall i | 0 <= i < |s.calib| :: lo <= s.calib[i] <= hi)
      && s.rho > 0.0 && s.rho >= 3.0 * sigma && s.rho >= cfg.multiplier * (hi - lo) as real
      && (s.rho == 3.0 * sigma || s.rho == cfg.multiplier * (hi - lo) as real)
    ensures var s := Run(cfg, values, sqrt);
      cfg.multiplier >= 2.0 ==> forall v: u64 | lo <= v <= hi :: Distance(v, s.mean) < 0.5 * s.rho
  {
    hide Run, Sum, SquareSum, MeanSigma, Largest, Smallest, Square, Times, Distance;
    var s := Run(cfg, values, sqrt);
    RunRecords(cfg, values, sqrt);
    TwoValues(s.calib);
    SampleDeviation(s.calib, sqrt);
    RadiusSign(cfg, s.calib, sqrt);
    Extremes(s.calib);
    sigma, lo, hi := MeanSigma(s.calib, sqrt).value.1, Smallest(s.calib), Largest(s.calib);
    if cfg.multiplier >= 2.0 {
      forall v: u64 | lo <= v <= hi ensures Distance(v, s.mean) < 0.5 * s.rho {
        InsideEnvelope(cfg, s.calib, sqrt, v);
      }
    }
  }

  function Distance(v: u64, mean: real): real {
    if v as real < mean then mean - v as real else v as real - mean
  }

  lemma InsideEnvelope(cfg: Config, values: seq<u64>, sqrt: real -> real, v: u64)
    requires values != [] && !Constant(values) && cfg.multiplier >= 2.0
    requires Smallest(values) <= v <= Largest(values)
    ensures var (mean, sigma) := MeanSigma(values, sqrt).value; Distance(v, mean) < 0.5 * Radius(cfg, values, sigma)
  {
    hide MeanSigma, Radius, Smallest, Largest, Constant;
    SegmentIsInsideEnvelope(cfg, values, sqrt, v);
  }

  lemma TwoValues(values: seq<u64>)
    requires values != [] && !Constant(values)
    ensures |values| >= 2
  {
  }
}
