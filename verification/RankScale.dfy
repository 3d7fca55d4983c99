/**
 The scale of the rank-sum test. The tie-corrected variance is that of the midranks themselves, and the deviate is the
 distance of U from its mean, less one half, in units of its square root.
 */
module RankScale {
  import opened RankStatistics
  import opened RankTest
  import Quantiles

  // ---- The identity behind the tie correction ----

  function Sq(a: int): int {
    a * a
  }

  function Cubed(a: int): int {
    a * a * a
  }

  /** Three times the square of (entries below less entries above), plus the square of the entries equal. */
  function Weight(v: real, s: seq<real>): int {
    3 * Sq(Below(v, s) - Above(v, s)) + Sq(Equal(v, s))
  }

  function Weights(part: seq<real>, s: seq<real>): int {
    if part == [] then 0 else Weight(part[0], s) + Weights(part[1..], s)
  }

  lemma {:induction false} WeightsSplit(a: seq<real>, b: seq<real>, s: seq<real>)
    ensures Weights(a + b, s) == Weights(a, s) + Weights(b, s)
  {
    hide Weight;
    if a == [] {
      assert a + b == b;
    } else {
      WeightsSplit(a[1..], b, s);
      assert (a + b)[1..] == a[1..] + b;
    }
  }

  lemma {:induction false} WeightsOfRun(run: seq<real>, s: seq<real>, w: int)
    requires forall k | 0 <= k < |run| :: Weight(run[k], s) == w
    ensures Weights(run, s) == |run| * w
  {
    hide Weight;
    if run != [] {
      WeightsOfRun(run[1..], s, w);
      assert |run| * w == (|run| - 1) * w + w;
    }
  }

  lemma {:induction false} WeightsIgnoreOrder(p: seq<real>, q: seq<real>, s: seq<real>, t: seq<real>)
    requires multiset(s) == multiset(t) && multiset(p) == multiset(q)
    ensures Weights(p, s) == Weights(q, t)
    decreases |p|
  {
    hide Weight;
    assert |multiset(p)| == |p| && |multiset(q)| == |q|;
    if p != [] {
      assert p[0] in multiset(q);
      var k :| 0 <= k < |q| && q[k] == p[0];
      RemoveOne(p, q, k);
      WeightsIgnoreOrder(p[1..], q[..k] + q[k + 1..], s, t);
      WeightsMiddle(q, k, t);
      SameWeight(p[0], s, t);
    }
  }

  lemma SameWeight(v: real, s: seq<real>, t: seq<real>)
    requires multiset(s) == multiset(t)
    ensures Weight(v, s) == Weight(v, t)
  {
    CountsIgnoreOrder(v, s, t);
  }

  lemma WeightsMiddle(q: seq<real>, k: nat, s: seq<real>)
    requires k < |q|
    ensures Weights(q, s) == Weights(q[..k] + q[k + 1..], s) + Weight(q[k], s)
  {
    hide Weight;
    assert q == q[..k] + ([q[k]] + q[k + 1..]);
    WeightsSplit(q[..k], [q[k]] + q[k + 1..], s);
    WeightsSplit(q[..k], q[k + 1..], s);
    assert ([q[k]] + q[k + 1..])[1..] == q[k + 1..];
  }

  /** Twice the total weight of a sorted list up to a tie boundary. */
  function Telescope(i: int, n: int): int {
    Cubed(2 * i - n) + Cubed(n)
  }

  /** A run of t ties from place i on is worth what the telescope gains. */
  lemma RunGains(i: int, t: int, n: int)
    ensures 2 * (t * (3 * Sq(i - (n - i - t)) + Sq(t))) == Telescope(i + t, n) - Telescope(i, n)
  {
    var a := 2 * i + t - n;
    CubeDifference(a, t);
    assert i - (n - i - t) == a && 2 * (i + t) - n == a + t && 2 * i - n == a - t;
  }

  lemma CubeDifference(a: int, t: int)
    ensures Cubed(a + t) - Cubed(a - t) == 2 * (t * (3 * Sq(a) + Sq(t)))
  {
    CubeOfSum(a, t);
    CubeOfSum(a, -t);
    assert Cubed(-t) == -Cubed(t) && Sq(-t) == Sq(t) && Sq(a) * -t == -(Sq(a) * t);
    assert t * (3 * Sq(a) + Sq(t)) == 3 * (Sq(a) * t) + Cubed(t);
  }

  lemma CubeOfSum(a: int, t: int)
    ensures Cubed(a + t) == Cubed(a) + 3 * (Sq(a) * t) + 3 * (a * Sq(t)) + Cubed(t)
  {
  }

  lemma RunWeight(v: seq<real>, i: nat, j: nat)
    requires TieRun(v, i, j)
    ensures 2 * Weights(v[..j + 1], v) - 2 * Weights(v[..i], v) == Telescope(j + 1, |v|) - Telescope(i, |v|)
  {
    hide Weight, Sq, Cubed, Telescope, Boundary, Below, Equal, Above, MidRank;
    var t := j - i + 1;
    var run := v[i..j + 1];
    RunIsOneWeight(v, i, j, run);
    WeightsOfRun(run, v, 3 * Sq(i - (|v| - i - t)) + Sq(t));
    assert v[..j + 1] == v[..i] + v[i..j + 1];
    WeightsSplit(v[..i], v[i..j + 1], v);
    RunGains(i, t, |v|);
  }

  lemma RunIsOneWeight(v: seq<real>, i: nat, j: nat, run: seq<real>)
    requires TieRun(v, i, j) && run == v[i..j + 1]
    ensures var t := j - i + 1;
      forall k | 0 <= k < |run| :: Weight(run[k], v) == 3 * Sq(i - (|v| - i - t)) + Sq(t)
  {
    TieRunCounts(v, i, j);
    CountsAddUp(v[i], v);
    hide Below, Equal, Above, MidRank, Boundary;
    assert forall k | 0 <= k < |run| :: run[k] == v[i + k] == v[i];
  }

  lemma SortedWeights(v: seq<real>)
    requires Ascending(v)
    ensures Weights(v, v) == Cubed(|v|)
  {
    hide Boundary, TieRun, Weight;
    var i := 0;
    RunsStart(v);
    assert 2 * Weights(v[..0], v) == Telescope(0, |v|) by { NothingGained(v); }
    while i < |v|
      invariant i <= |v| && Boundary(v, i) && 2 * Weights(v[..i], v) == Telescope(i, |v|)
    {
      var j := i;
      while j + 1 < |v| && v[j + 1] == v[i]
        invariant i <= j < |v| && forall k | i <= k <= j :: v[k] == v[i]
      {
        j := j + 1;
      }
      RunEnds(v, i, j);
      RunWeight(v, i, j);
      RunIsBounded(v, i, j);
      i := j + 1;
    }
    assert v[..i] == v;
    AllGained(|v|);
  }

  lemma NothingGained(v: seq<real>)
    ensures 2 * Weights(v[..0], v) == Telescope(0, |v|)
  {
    hide Weight, Telescope;
    TelescopeStarts(|v|);
    assert v[..0] == [];
  }

  lemma TelescopeStarts(n: int)
    ensures Telescope(0, n) == 0
  {
    hide Cubed;
    CubeIsOdd(n);
  }

  lemma CubeIsOdd(n: int)
    ensures Cubed(-n) == -Cubed(n)
  {
  }

  lemma AllGained(n: int)
    ensures Telescope(n, n) == 2 * Cubed(n)
  {
  }

  /** Whatever the ties: over any list the weights add up to the cube of its length. */
  lemma WeightsOfPool(s: seq<real>)
    ensures Weights(s, s) == Cubed(|s|)
  {
    hide Weights, Cubed;
    var v := Quantiles.Sorted(s);
    Quantiles.SortedAscends(s);
    SortedWeights(v);
    WeightsIgnoreOrder(s, v, s, v);
  }

  // ---- The variance of U is that of the midranks ----

  /** The sum of the squared distances of the midranks from their mean. */
  function Spread(part: seq<real>, s: seq<real>): real {
    if part == [] then 0.0
    else
      var d := MidRank(part[0], s) - (|s| as real + 1.0) / 2.0;
      d * d + Spread(part[1..], s)
  }

  lemma EntrySpread(v: real, s: seq<real>, d: real)
    requires d == MidRank(v, s) - (|s| as real + 1.0) / 2.0
    ensures 12.0 * (d * d) + Excess(v, s) + 1.0 == Weight(v, s) as real
  {
    CountsAddUp(v, s);
    hide Below, Equal, Above;
    var diff, e: int := Below(v, s) - Above(v, s), Equal(v, s);
    assert d == diff as real / 2.0;
    HalfSquare(d, diff);
    SquareCast(e);
  }

  lemma HalfSquare(d: real, diff: int)
    requires d == diff as real / 2.0
    ensures 12.0 * (d * d) == (3 * Sq(diff)) as real
  {
    SquareCast(diff);
    var x := diff as real;
    assert d * d == x * x / 4.0;
  }

  lemma SquareCast(a: int)
    ensures Sq(a) as real == a as real * a as real
  {
  }

  lemma {:induction false} SpreadIsWeights(part: seq<real>, s: seq<real>)
    ensures 12.0 * Spread(part, s) + TieTotal(part, s) + |part| as real == Weights(part, s) as real
  {
    hide Weight, Excess, MidRank;
    if part != [] {
      SpreadIsWeights(part[1..], s);
      var d := MidRank(part[0], s) - (|s| as real + 1.0) / 2.0;
      EntrySpread(part[0], s, d);
      assert |part| as real == |part[1..]| as real + 1.0;
    }
  }

  /** N (N - 1) times the tie-corrected variance of U is n m times the sum, over the pool, of the squared distance of each
      midrank from the middle rank (N + 1) / 2. */
  lemma VarianceIsSpreadOfRanks(x: seq<real>, y: seq<real>)
    requires x != [] && y != []
    ensures var s, n := x + y, |x + y|;
      n as real * (n as real - 1.0) * Variance(x, y) == |x| as real * |y| as real * Spread(s, s)
  {
    hide TieTotal, Spread, Weights, MidRank;
    var s, n := x + y, |x + y|;
    var ties, spread := TieTotal(s, s), Spread(s, s);
    WeightsOfPool(s);
    SpreadIsWeights(s, s);
    CubeCast(n);
    PairsPositive(n, n - 1);
    Rescale(n as real, ties, spread, |x| as real * |y| as real);
    assert (n - 1) as real == n as real - 1.0;
  }

  lemma CubeCast(n: int)
    ensures Cubed(n) as real == n as real * n as real * n as real
  {
    var a, b: int := n * n, n;
    assert (a * b) as real == a as real * b as real;
    SquareCast(n);
  }

  lemma Rescale(n: real, ties: real, spread: real, nm: real)
    requires 12.0 * spread + ties + n == n * n * n && n * (n - 1.0) > 0.0
    ensures n * (n - 1.0) * (nm / 12.0 * (n + 1.0 - ties / (n * (n - 1.0)))) == nm * spread
  {
    var p := n * (n - 1.0);
    var factor := n + 1.0 - ties / p;
    assert p * (ties / p) == ties;
    assert p * factor == p * (n + 1.0) - p * (ties / p);
    assert p * (n + 1.0) == n * n * n - n by { DifferenceOfSquares(n); }
    assert p * factor == 12.0 * spread;
    Regroup(p, nm, factor, spread);
  }

  lemma DifferenceOfSquares(n: real)
    ensures n * (n - 1.0) * (n + 1.0) == n * n * n - n
  {
    assert (n - 1.0) * (n + 1.0) == n * n - 1.0;
    assert n * (n - 1.0) * (n + 1.0) == n * ((n - 1.0) * (n + 1.0));
  }

  lemma Regroup(p: real, nm: real, factor: real, spread: real)
    requires p * factor == 12.0 * spread
    ensures p * (nm / 12.0 * factor) == nm * spread
  {
    var k := nm / 12.0;
    assert p * (k * factor) == k * (p * factor);
    assert k * (12.0 * spread) == nm * spread;
  }

  // ---- The deviate ----

  /** What is used of the square root. */
  ghost predicate ExactRoot(sqrt: real -> real) {
    forall v | v > 0.0 :: sqrt(v) > 0.0 && sqrt(v) * sqrt(v) == v
  }

  /** The deviate is the one number, not above zero, whose square times the floored variance is the square of how far U
      lies more than one half below its mean; the p-value is that of the deviate. */
  lemma DeviateIsStandardized(x: seq<real>, y: seq<real>, sqrt: real -> real, twoTail: real -> real)
    requires ExactRoot(sqrt) && x != [] && y != []
    ensures PositiveRoot(sqrt)
    ensures var r := Test(x, y, sqrt, twoTail).value;
      var mu, v := |x| as real * |y| as real / 2.0, Variance(x, y);
      var short := mu - r.u - 0.5;
      && r.pTwoSided == twoTail(r.z) && r.z <= 0.0
      && r.z * r.z * (if v > 0.000_000_000_001 then v else 0.000_000_000_001) == if short > 0.0 then short * short else 0.0
  {
    hide Variance, PairScore, U;
    assert PositiveRoot(sqrt);
    DeviateNeverPositive(x, y, sqrt, twoTail);
    var v := Max(Variance(x, y), 0.000_000_000_001);
    var u, mu, sigma := U(x, y), Pairs(|x|, |y|) / 2.0, sqrt(v);
    SquaredDeviate(u, mu, sigma, v);
  }

  lemma SquaredDeviate(u: real, mu: real, sigma: real, v: real)
    requires sigma > 0.0 && sigma * sigma == v && u <= mu
    ensures var z, short := Deviate(u, mu, sigma), mu - u - 0.5;
      z * z * v == if short > 0.0 then short * short else 0.0
  {
    var shrunk := RankTest.Max(mu - u - 0.5, 0.0);
    var z := Deviate(u, mu, sigma);
    NegatedQuotient(shrunk, sigma);
    SquaredQuotient(shrunk, sigma, v);
    var q := shrunk / sigma;
    assert z == -q;
    assert z * z == q * q;
  }

  lemma NegatedQuotient(a: real, b: real)
    requires b > 0.0
    ensures -a / b == -(a / b)
  {
  }

  lemma SquaredQuotient(a: real, sigma: real, v: real)
    requires sigma > 0.0 && sigma * sigma == v
    ensures var q := a / sigma; q * q * v == a * a
  {
    var q := a / sigma;
    assert q * sigma == a;
    assert q * q * (sigma * sigma) == (q * sigma) * (q * sigma);
  }
}
