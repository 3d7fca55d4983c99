/**
 The two-sample rank-sum test: the loops over the pooled, sorted observations compute exactly
 the pair counts and the tie total, whatever the order of the observations.
 The square root and the two-sided normal tail are parameters.
 */
module RankTest {
  import opened Wrappers
  import opened Sorting
  import opened RankStatistics

  datatype Tagged = Tagged(value: real, group: nat, index: nat)

  datatype Outcome = Outcome(u: real, z: real, pTwoSided: real)

  // ---- Pooling ----

  predicate TagLe(a: Tagged, b: Tagged) {
    a.value < b.value
    || (a.value == b.value && (a.group < b.group || (a.group == b.group && a.index <= b.index)))
  }

  function ByValue(): (Tagged, Tagged) -> bool {
    (a, b) => TagLe(a, b)
  }

  lemma ByValueIsTotal()
    ensures TotalOrder(ByValue())
  {
  }

  function Tag(x: seq<real>, group: nat): (p: seq<Tagged>)
    ensures |p| == |x| && forall i | 0 <= i < |p| :: p[i] == Tagged(x[i], group, i)
  {
    seq(|x|, i requires 0 <= i < |x| => Tagged(x[i], group, i))
  }

  function Values(p: seq<Tagged>): (v: seq<real>)
    ensures |v| == |p| && forall i | 0 <= i < |p| :: v[i] == p[i].value
  {
    seq(|p|, i requires 0 <= i < |p| => p[i].value)
  }

  /** Every entry of `p` names an observation, and every observation is named. */
  predicate PoolOf(p: seq<Tagged>, x: seq<real>, y: seq<real>) {
    && (forall t | t in p :: Names(t, x, y))
    && (forall i | 0 <= i < |x| :: Tagged(x[i], 0, i) in p)
    && (forall i | 0 <= i < |y| :: Tagged(y[i], 1, i) in p)
  }

  predicate Names(t: Tagged, x: seq<real>, y: seq<real>) {
    if t.group == 0 then t.index < |x| && x[t.index] == t.value
    else t.group == 1 && t.index < |y| && y[t.index] == t.value
  }

  lemma TagsArePool(x: seq<real>, y: seq<real>)
    ensures PoolOf(Tag(x, 0) + Tag(y, 1), x, y)
    ensures Values(Tag(x, 0) + Tag(y, 1)) == x + y
  {
    var p := Tag(x, 0) + Tag(y, 1);
    forall i | 0 <= i < |x| ensures Tagged(x[i], 0, i) in p {
      assert p[i] == Tagged(x[i], 0, i);
    }
    forall i | 0 <= i < |y| ensures Tagged(y[i], 1, i) in p {
      assert p[|x| + i] == Tagged(y[i], 1, i);
    }
  }

  lemma {:induction false} InsertValues(t: Tagged, p: seq<Tagged>)
    ensures multiset(Values(InsertBy(t, p, ByValue()))) == multiset(Values(p)) + multiset{t.value}
  {
    if p == [] || TagLe(t, p[0]) {
      assert Values([t] + p) == [t.value] + Values(p);
    } else {
      var rest := InsertBy(t, p[1..], ByValue());
      InsertValues(t, p[1..]);
      assert Values([p[0]] + rest) == [p[0].value] + Values(rest);
      assert Values(p) == [p[0].value] + Values(p[1..]);
    }
  }

  lemma {:induction false} SortedValues(p: seq<Tagged>)
    ensures multiset(Values(SortBy(p, ByValue()))) == multiset(Values(p))
  {
    if p != [] {
      SortedValues(p[1..]);
      InsertValues(p[0], SortBy(p[1..], ByValue()));
      assert Values(p) == [p[0].value] + Values(p[1..]);
    }
  }

  predicate Ascending(v: seq<real>) {
    forall i, j | 0 <= i < j < |v| :: v[i] <= v[j]
  }

  lemma PoolIgnoresOrder(p: seq<Tagged>, q: seq<Tagged>, x: seq<real>, y: seq<real>)
    requires multiset(p) == multiset(q) && PoolOf(p, x, y)
    ensures PoolOf(q, x, y)
  {
    hide Names;
    assert forall t :: t in p <==> t in multiset(p);
    assert forall t :: t in q <==> t in multiset(q);
  }

  lemma OrderedAscends(p: seq<Tagged>)
    requires Ordered(p, ByValue())
    ensures Ascending(Values(p))
  {
    forall i, j | 0 <= i < j < |p| ensures p[i].value <= p[j].value {
      assert ByValue()(p[i], p[j]);
    }
  }

  lemma SortedPool(x: seq<real>, y: seq<real>, p: seq<Tagged>)
    requires p == SortBy(Tag(x, 0) + Tag(y, 1), ByValue())
    ensures PoolOf(p, x, y) && Ascending(Values(p)) && multiset(Values(p)) == multiset(x + y)
  {
    hide *;
    var raw := Tag(x, 0) + Tag(y, 1);
    TagsArePool(x, y);
    SortedValues(raw);
    SortByPermutes(raw, ByValue());
    PoolIgnoresOrder(raw, p, x, y);
    ByValueIsTotal();
    SortByOrders(raw, ByValue());
    OrderedAscends(p);
  }

  // ---- Runs of ties ----

  /** Values before place `i` are below those from `i` on. */
  predicate Boundary(v: seq<real>, i: nat) {
    forall k, l | 0 <= k < i <= l < |v| :: v[k] < v[l]
  }

  /** The places i..j hold exactly the entries equal to v[i]. */
  predicate TieRun(v: seq<real>, i: nat, j: nat) {
    && i <= j < |v| && Boundary(v, i) && Boundary(v, j + 1)
    && forall k | i <= k <= j :: v[k] == v[i]
  }

  lemma TieRunCounts(v: seq<real>, i: nat, j: nat)
    requires TieRun(v, i, j)
    ensures Below(v[i], v) == i && Equal(v[i], v) == j - i + 1
    ensures MidRank(v[i], v) == (i as real + 1.0 + j as real + 1.0) / 2.0
  {
    hide Below, Equal, Above;
    var before, run, after := v[..i], v[i..j + 1], v[j + 1..];
    assert v == before + (run + after);
    CountsSplit(v[i], before, run + after);
    CountsSplit(v[i], run, after);
    AllBelow(v[i], before);
    AllEqual(v[i], run) by { assert forall k | 0 <= k < |run| :: run[k] == v[i + k]; }
    AllAbove(v[i], after) by { assert forall k | 0 <= k < |after| :: after[k] == v[j + 1 + k]; }
    CountsAddUp(v[i], before);
    CountsAddUp(v[i], run);
    CountsAddUp(v[i], after);
  }

  lemma TieRunTotal(v: seq<real>, i: nat, j: nat, t: real)
    requires TieRun(v, i, j) && t == (j - i + 1) as real
    ensures TieTotal(v[..j + 1], v) == TieTotal(v[..i], v) + (t * t * t - t)
  {
    hide TieTotal, Excess, MidRank;
    TieRunCounts(v, i, j);
    var run := v[i..j + 1];
    TieTotalOfRun(run, v, Excess(v[i], v));
    TieTotalSplits(v[..i], run, v);
    assert v[..j + 1] == v[..i] + run;
    RunExcess(v[i], v, j - i + 1, t);
  }

  lemma RunExcess(value: real, v: seq<real>, k: nat, t: real)
    requires Equal(value, v) == k && t == k as real
    ensures k as real * Excess(value, v) == t * t * t - t
  {
    Cube(k, t);
  }

  lemma Cube(k: nat, t: real)
    requires t == k as real
    ensures t * (Square(k) - 1.0) == t * t * t - t
  {
    assert t * (t * t) == t * t * t;
  }

  lemma RunEnds(v: seq<real>, i: nat, j: nat)
    requires Ascending(v) && i <= j < |v| && Boundary(v, i)
    requires forall k | i <= k <= j :: v[k] == v[i]
    requires j + 1 < |v| ==> v[j + 1] != v[i]
    ensures TieRun(v, i, j)
  {
    forall k, l | 0 <= k < j + 1 <= l < |v| ensures v[k] < v[l] {
      assert v[k] <= v[j] && v[j] == v[i];
      assert v[j + 1] <= v[l];
      assert v[j] <= v[j + 1];
    }
  }

  /** The cells of all entries of p[..n] hold their midranks. */
  predicate Ranked(p: seq<Tagged>, n: nat, s: seq<real>, ranksX: seq<real>, ranksY: seq<real>) {
    n <= |p| && forall k | 0 <= k < n :: HasRank(p[k], s, ranksX, ranksY)
  }

  predicate HasRank(t: Tagged, s: seq<real>, ranksX: seq<real>, ranksY: seq<real>) {
    if t.group == 0 then t.index < |ranksX| && ranksX[t.index] == MidRank(t.value, s)
    else t.index < |ranksY| && ranksY[t.index] == MidRank(t.value, s)
  }

  /** Writing an observation's midrank into its cell spoils no other entry's rank. */
  lemma RankWrite(p: seq<Tagged>, n: nat, x: seq<real>, y: seq<real>, s: seq<real>,
                  ranksX: seq<real>, ranksY: seq<real>, newX: seq<real>, newY: seq<real>)
    requires n < |p| && Ranked(p, n, s, ranksX, ranksY) && (forall t | t in p :: Names(t, x, y))
    requires |ranksX| == |x| && |ranksY| == |y| && p[n].index < if p[n].group == 0 then |x| else |y|
    requires p[n].group == 0 ==> newX == ranksX[p[n].index := MidRank(p[n].value, s)] && newY == ranksY
    requires p[n].group != 0 ==> newY == ranksY[p[n].index := MidRank(p[n].value, s)] && newX == ranksX
    ensures Ranked(p, n + 1, s, newX, newY)
  {
    hide MidRank;
    forall k | 0 <= k < n + 1 ensures HasRank(p[k], s, newX, newY) {
      assert p[k] in p && Names(p[k], x, y) && Names(p[n], x, y);
      assert k < n ==> HasRank(p[k], s, ranksX, ranksY);
    }
  }

  lemma AllRanked(p: seq<Tagged>, x: seq<real>, y: seq<real>, s: seq<real>, ranksX: seq<real>, ranksY: seq<real>)
    requires PoolOf(p, x, y) && Ranked(p, |p|, s, ranksX, ranksY) && |ranksX| == |x| && |ranksY| == |y|
    ensures forall i | 0 <= i < |x| :: ranksX[i] == MidRank(x[i], s)
    ensures forall i | 0 <= i < |y| :: ranksY[i] == MidRank(y[i], s)
  {
    hide MidRank;
    forall i | 0 <= i < |x| ensures ranksX[i] == MidRank(x[i], s) {
      var k :| 0 <= k < |p| && p[k] == Tagged(x[i], 0, i);
      assert HasRank(p[k], s, ranksX, ranksY);
    }
    forall i | 0 <= i < |y| ensures ranksY[i] == MidRank(y[i], s) {
      var k :| 0 <= k < |p| && p[k] == Tagged(y[i], 1, i);
      assert HasRank(p[k], s, ranksX, ranksY);
    }
  }

  /** Writes `avg`, the midrank of the run i..j, into the cells of the run's entries. */
  method WriteRun(p: seq<Tagged>, i: nat, j: nat, avg: real, ranksX: array<real>, ranksY: array<real>,
                  ghost x: seq<real>, ghost y: seq<real>, ghost v: seq<real>)
    requires ranksX != ranksY && ranksX.Length == |x| && ranksY.Length == |y|
    requires i <= j < |p| && (forall t | t in p :: Names(t, x, y))
    requires forall k | i <= k <= j :: MidRank(p[k].value, v) == avg
    requires Ranked(p, i, v, ranksX[..], ranksY[..])
    modifies ranksX, ranksY
    ensures Ranked(p, j + 1, v, ranksX[..], ranksY[..])
  {
    hide MidRank, HasRank;
    for k := i to j + 1
      invariant Ranked(p, k, v, ranksX[..], ranksY[..])
    {
      ghost var oldX, oldY := ranksX[..], ranksY[..];
      assert p[k] in p;
      if p[k].group == 0 {
        ranksX[p[k].index] := avg;
      } else {
        ranksY[p[k].index] := avg;
      }
      RankWrite(p, k, x, y, v, oldX, oldY, ranksX[..], ranksY[..]);
    }
  }

  /** The rank loop: every observation gets its midrank, and the tie sum collects (t^3 - t)/12 per run. */
  method AssignRanks(p: seq<Tagged>, x: seq<real>, y: seq<real>) returns (ranksX: array<real>, ranksY: array<real>, tieSum: real)
    requires PoolOf(p, x, y) && Ascending(Values(p))
    ensures ranksX.Length == |x| && forall i | 0 <= i < |x| :: ranksX[i] == MidRank(x[i], Values(p))
    ensures ranksY.Length == |y| && forall i | 0 <= i < |y| :: ranksY[i] == MidRank(y[i], Values(p))
    ensures 12.0 * tieSum == TieTotal(Values(p), Values(p))
  {
    hide MidRank, TieTotal, Boundary, TieRun, HasRank;
    ranksX, ranksY, tieSum := new real[|x|](_ => 0.0), new real[|y|](_ => 0.0), 0.0;
    var total := |p|;
    ghost var v := Values(p);
    var i := 0;
    RunsStart(v);
    while i < total
      invariant 0 <= i <= total && Boundary(v, i) && ranksX.Length == |x| && ranksY.Length == |y|
      invariant fresh(ranksX) && fresh(ranksY) && ranksX != ranksY
      invariant Ranked(p, i, v, ranksX[..], ranksY[..])
      invariant 12.0 * tieSum == TieTotal(v[..i], v)
    {
      var j := i;
      while j + 1 < total && p[j + 1].value == p[i].value
        invariant i <= j < total && forall k | i <= k <= j :: v[k] == v[i]
      {
        j := j + 1;
      }
      RunEnds(v, i, j);
      TieRunCounts(v, i, j);
      var avg := (i as real + 1.0 + j as real + 1.0) / 2.0;
      WriteRun(p, i, j, avg, ranksX, ranksY, x, y, v);
      var t := (j - i + 1) as real;
      TieRunTotal(v, i, j, t);
      if t > 1.0 {
        tieSum := tieSum + (t * t * t - t) / 12.0;
      } else {
        assert t == 1.0;
      }
      RunIsBounded(v, i, j);
      i := j + 1;
    }
    assert v[..i] == v;
    AllRanked(p, x, y, v, ranksX[..], ranksY[..]);
  }

  lemma RunsStart(v: seq<real>)
    ensures Boundary(v, 0) && TieTotal(v[..0], v) == 0.0
  {
  }

  lemma RunIsBounded(v: seq<real>, i: nat, j: nat)
    requires TieRun(v, i, j)
    ensures Boundary(v, j + 1)
  {
  }

  /** The sum of a list of midranks. */
  method SumRanks(ranks: array<real>, ghost x: seq<real>, ghost s: seq<real>) returns (sum: real)
    requires ranks.Length == |x| && forall i | 0 <= i < |x| :: ranks[i] == MidRank(x[i], s)
    ensures sum == RankTotal(x, s)
  {
    hide MidRank;
    sum := 0.0;
    for i := 0 to ranks.Length
      invariant sum == RankTotal(x[..i], s)
    {
      RankTotalAppends(x[..i], x[i], s);
      assert x[..i + 1] == x[..i] + [x[i]];
      sum := sum + ranks[i];
    }
    assert x[..|x|] == x;
  }

  // ---- The test ----

  function Min(a: real, b: real): real {
    if a < b then a else b
  }

  function Max(a: real, b: real): real {
    if a > b then a else b
  }

  function Abs(a: real): real {
    if a < 0.0 then -a else a
  }

  ghost predicate PositiveRoot(sqrt: real -> real) {
    forall v | v > 0.0 :: sqrt(v) > 0.0
  }

  /** U is the smaller of the two pair counts. */
  function U(x: seq<real>, y: seq<real>): real {
    Min(PairScore(x, y), PairScore(y, x))
  }

  /** The deviate of `u` from `mu`, shrunk by one half and divided by sigma. */
  function Deviate(u: real, mu: real, sigma: real): real
    requires sigma > 0.0
  {
    var shrunk := Max(Abs(u - mu) - 0.5, 0.0);
    if u < mu then -shrunk / sigma else shrunk / sigma
  }

  ghost function Test(x: seq<real>, y: seq<real>, sqrt: real -> real, twoTail: real -> real): Option<Outcome>
    requires PositiveRoot(sqrt)
  {
    if x == [] || y == [] then None
    else
      var z := Deviate(U(x, y), Pairs(|x|, |y|) / 2.0, sqrt(Max(Variance(x, y), 0.000_000_000_001)));
      Some(Outcome(U(x, y), z, twoTail(z)))
  }

  /** `mann_whitney_u`. The rank computation gives exactly the pair counts and the tie-corrected variance. */
  method MannWhitneyU(x: seq<real>, y: seq<real>, sqrt: real -> real, twoTail: real -> real)
    returns (r: Option<Outcome>)
    requires PositiveRoot(sqrt)
    ensures r == Test(x, y, sqrt, twoTail)
  {
    hide PairScore, RankTotal, TieTotal, MidRank, SortBy, PoolOf, Pairs, TieFactor, Deviate, Max;
    var n, m := |x|, |y|;
    if n == 0 || m == 0 {
      return None;
    }
    var pooled := SortBy(Tag(x, 0) + Tag(y, 1), ByValue());
    SortedPool(x, y, pooled);
    ghost var v := Values(pooled);
    var ranksX, ranksY, tieSum := AssignRanks(pooled, x, y);
    var rx := SumRanks(ranksX, x, v);
    var ry := SumRanks(ranksY, y, v);
    var nf, mf := n as real, m as real;
    var ux := rx - nf * (nf + 1.0) / 2.0;
    var uy := ry - mf * (mf + 1.0) / 2.0;
    RankSumsOfPool(x, y, v);
    var u := Min(ux, uy);
    var mu, variance := NullMoments(n, m, tieSum);
    TieTotalIgnoresOrder(v, x + y, v, x + y);
    assert |x + y| == n + m;
    FloorIsPositive(variance);
    assert variance == Variance(x, y);
    assert u == U(x, y);
    var sigma := sqrt(Max(variance, 0.000_000_000_001));
    var z := Deviate(u, mu, sigma);
    return Some(Outcome(u, z, twoTail(z)));
  }

  lemma FloorIsPositive(v: real)
    ensures Max(v, 0.000_000_000_001) > 0.0
  {
  }

  lemma RankSumsOfPool(x: seq<real>, y: seq<real>, v: seq<real>)
    requires multiset(v) == multiset(x + y)
    ensures RankTotal(x, v) - |x| as real * (|x| as real + 1.0) / 2.0 == PairScore(x, y)
    ensures RankTotal(y, v) - |y| as real * (|y| as real + 1.0) / 2.0 == PairScore(y, x)
  {
    RankTotalIgnoresOrder(x, v, x + y);
    RankTotalIgnoresOrder(y, v, x + y);
    RankSumIsPairCount(x, y);
    RankSumIsPairCount(y, x);
  }

  /** The mean of U, and its variance as computed from the tie sum. */
  method NullMoments(n: nat, m: nat, tieSum: real) returns (mu: real, variance: real)
    requires n > 0 && m > 0
    ensures mu == Pairs(n, m) / 2.0
    ensures variance == Pairs(n, m) / 12.0 * TieFactor(n + m, 12.0 * tieSum)
  {
    PairsPositive(n + m, n + m - 1);
    var nf, mf, total := n as real, m as real, (n + m) as real;
    mu := nf * mf / 2.0;
    assert total - 1.0 == (n + m - 1) as real;
    variance := (nf * mf / 12.0) * (total + 1.0 - 12.0 * tieSum / (total * (total - 1.0)));
  }

  // ---- What the test promises ----

  /** Swapping the samples changes nothing, p-value included. */
  lemma TestIsSymmetric(x: seq<real>, y: seq<real>, sqrt: real -> real, twoTail: real -> real)
    requires PositiveRoot(sqrt)
    ensures Test(x, y, sqrt, twoTail) == Test(y, x, sqrt, twoTail)
  {
    hide Deviate, Pairs, Variance, U;
    if x != [] && y != [] {
      UIsSymmetric(x, y);
      VarianceIsSymmetric(x, y);
      PairsCommute(|x|, |y|);
    }
  }

  lemma UIsSymmetric(x: seq<real>, y: seq<real>)
    ensures U(x, y) == U(y, x)
  {
    hide PairScore;
  }

  lemma VarianceIsSymmetric(x: seq<real>, y: seq<real>)
    requires x != [] && y != []
    ensures Variance(x, y) == Variance(y, x)
  {
    hide TieTotal, TieFactor, Pairs;
    assert multiset(x + y) == multiset(y + x) && |x + y| == |y + x|;
    TieTotalIgnoresOrder(x + y, y + x, x + y, y + x);
    PairsCommute(|x|, |y|);
  }

  lemma PairsCommute(n: nat, m: nat)
    ensures Pairs(n, m) == Pairs(m, n)
  {
  }

  /** The deviate is never positive: U is the smaller count, so at most half of all pairs. */
  lemma DeviateNeverPositive(x: seq<real>, y: seq<real>, sqrt: real -> real, twoTail: real -> real)
    requires PositiveRoot(sqrt) && x != [] && y != []
    ensures 0.0 <= U(x, y) <= Pairs(|x|, |y|) / 2.0
    ensures Test(x, y, sqrt, twoTail).value.z <= 0.0
    ensures Test(x, y, sqrt, twoTail).value.z == 0.0 <==> U(x, y) >= Pairs(|x|, |y|) / 2.0 - 0.5
  {
    hide PairScore, Variance;
    PairsAddUp(x, y);
    PairScoreIsZero(x, y);
    PairScoreIsZero(y, x);
    var sigma := sqrt(Max(Variance(x, y), 0.000_000_000_001));
    var u, mu := U(x, y), Pairs(|x|, |y|) / 2.0;
    DeviateSign(u, mu, sigma);
  }

  lemma DeviateSign(u: real, mu: real, sigma: real)
    requires sigma > 0.0 && u <= mu
    ensures Deviate(u, mu, sigma) <= 0.0 && (Deviate(u, mu, sigma) == 0.0 <==> u >= mu - 0.5)
  {
    var shrunk := Max(mu - u - 0.5, 0.0);
    NegativeQuotient(shrunk, sigma);
  }

  lemma NegativeQuotient(a: real, b: real)
    requires a >= 0.0 && b > 0.0
    ensures -a / b <= 0.0 && a / b >= 0.0 && (-a / b == 0.0 <==> a == 0.0)
  {
  }

  /** U is zero exactly when the samples do not overlap at all. */
  lemma ZeroMeansSeparated(x: seq<real>, y: seq<real>)
    ensures U(x, y) == 0.0 <==>
      (forall i, j | 0 <= i < |x| && 0 <= j < |y| :: x[i] < y[j])
      || (forall i, j | 0 <= i < |y| && 0 <= j < |x| :: y[i] < x[j])
  {
    hide PairScore;
    PairScoreIsZero(x, y);
    PairScoreIsZero(y, x);
  }

  /** U in terms of the dominance estimate `a`: n*m times a or 1 - a, whichever is smaller. */
  lemma UFromDominance(x: seq<real>, y: seq<real>, a: real)
    requires x != [] && y != [] && a * Pairs(|x|, |y|) == PairScore(x, y)
    ensures U(x, y) == Min(a * Pairs(|x|, |y|), (1.0 - a) * Pairs(|x|, |y|))
  {
    PairsAddUp(x, y);
    hide PairScore, Pairs;
    var p := Pairs(|x|, |y|);
    assert (1.0 - a) * p == p - a * p;
  }
}
