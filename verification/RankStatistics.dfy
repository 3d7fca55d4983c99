/**
 The pair counts, midranks and tie correction behind the rank-sum test, over exact reals.
 */
module RankStatistics {
  import opened Wrappers

  // ---- Counting ----

  /** How many entries of `s` are below `v`. */
  function Below(v: real, s: seq<real>): nat {
    if s == [] then 0 else (if s[0] < v then 1 else 0) + Below(v, s[1..])
  }

  /** How many entries of `s` equal `v`. */
  function Equal(v: real, s: seq<real>): nat {
    if s == [] then 0 else (if s[0] == v then 1 else 0) + Equal(v, s[1..])
  }

  /** How many entries of `s` are above `v`. */
  function Above(v: real, s: seq<real>): nat {
    if s == [] then 0 else (if s[0] > v then 1 else 0) + Above(v, s[1..])
  }

  lemma {:induction false} CountsSplit(v: real, a: seq<real>, b: seq<real>)
    ensures Below(v, a + b) == Below(v, a) + Below(v, b)
    ensures Equal(v, a + b) == Equal(v, a) + Equal(v, b)
    ensures Above(v, a + b) == Above(v, a) + Above(v, b)
  {
    if a == [] {
      assert a + b == b;
    } else {
      CountsSplit(v, a[1..], b);
      assert (a + b)[1..] == a[1..] + b;
    }
  }

  lemma {:induction false} CountsAddUp(v: real, s: seq<real>)
    ensures Below(v, s) + Equal(v, s) + Above(v, s) == |s|
    ensures v in s <==> Equal(v, s) > 0
  {
    if s != [] {
      CountsAddUp(v, s[1..]);
      assert s == [s[0]] + s[1..];
    }
  }

  lemma {:induction false} AllBelow(v: real, s: seq<real>)
    requires forall k | 0 <= k < |s| :: s[k] < v
    ensures Below(v, s) == |s|
  {
    if s != [] { AllBelow(v, s[1..]); }
  }

  lemma {:induction false} AllEqual(v: real, s: seq<real>)
    ensures Equal(v, s) == |s| <==> forall k | 0 <= k < |s| :: s[k] == v
  {
    if s != [] {
      AllEqual(v, s[1..]);
      CountsAddUp(v, s[1..]);
      if Equal(v, s) == |s| {
        forall k | 0 <= k < |s| ensures s[k] == v {
          assert k > 0 ==> s[1..][k - 1] == s[k];
        }
      }
    }
  }

  lemma {:induction false} AllAbove(v: real, s: seq<real>)
    requires forall k | 0 <= k < |s| :: s[k] > v
    ensures Above(v, s) == |s|
  {
    if s != [] { AllAbove(v, s[1..]); }
  }

  lemma RemoveOne(s: seq<real>, t: seq<real>, k: nat)
    requires s != [] && k < |t| && t[k] == s[0] && multiset(s) == multiset(t)
    ensures multiset(s[1..]) == multiset(t[..k] + t[k + 1..])
  {
    var rest := t[..k] + t[k + 1..];
    assert multiset(s) == multiset(s[1..]) + multiset{s[0]} by { assert s == [s[0]] + s[1..]; }
    assert multiset(t) == multiset(rest) + multiset{s[0]} by { assert t == t[..k] + ([t[k]] + t[k + 1..]); }
    Cancel(multiset(s[1..]), multiset(rest), s[0]);
  }

  lemma Cancel(a: multiset<real>, b: multiset<real>, v: real)
    requires a + multiset{v} == b + multiset{v}
    ensures a == b
  {
    assert a == (a + multiset{v}) - multiset{v} && b == (b + multiset{v}) - multiset{v};
  }

  /** The counts do not depend on the order of the list. */
  lemma {:induction false} CountsIgnoreOrder(v: real, s: seq<real>, t: seq<real>)
    requires multiset(s) == multiset(t)
    ensures Below(v, s) == Below(v, t) && Equal(v, s) == Equal(v, t) && Above(v, s) == Above(v, t)
    decreases |s|
  {
    if s == [] {
      assert t == [] by { assert |multiset(t)| == |t|; }
    } else {
      assert s[0] in multiset(t);
      var k :| 0 <= k < |t| && t[k] == s[0];
      RemoveOne(s, t, k);
      CountsIgnoreOrder(v, s[1..], t[..k] + t[k + 1..]);
      hide *;
      CountsSplit(v, t[..k], t[k + 1..]);
      CountsSplit(v, t[..k], [t[k]] + t[k + 1..]);
      CountsSplit(v, [t[k]], t[k + 1..]);
      CountsSplit(v, [s[0]], s[1..]);
      assert s == [s[0]] + s[1..];
      assert t == t[..k] + ([t[k]] + t[k + 1..]);
    }
  }

  // ---- Pair counting ----

  /** One pair: 1 when `a` beats `b`, one half on a tie. */
  function Score(a: real, b: real): real {
    if a > b then 1.0 else if a == b then 0.5 else 0.0
  }

  function RowScore(a: real, y: seq<real>): real {
    if y == [] then 0.0 else Score(a, y[0]) + RowScore(a, y[1..])
  }

  /** Pairs (x, y) in which x beats y, ties counting half. */
  function PairScore(x: seq<real>, y: seq<real>): real {
    if x == [] then 0.0 else RowScore(x[0], y) + PairScore(x[1..], y)
  }

  lemma {:induction false} RowScoreAppends(a: real, y: seq<real>, b: real)
    ensures RowScore(a, y + [b]) == RowScore(a, y) + Score(a, b)
  {
    if y != [] {
      RowScoreAppends(a, y[1..], b);
      assert (y + [b])[1..] == y[1..] + [b];
    }
  }

  lemma {:induction false} PairScoreAppends(x: seq<real>, a: real, y: seq<real>)
    ensures PairScore(x + [a], y) == PairScore(x, y) + RowScore(a, y)
  {
    if x != [] {
      PairScoreAppends(x[1..], a, y);
      assert (x + [a])[1..] == x[1..] + [a];
    } else {
      assert [a][1..] == [];
    }
  }

  lemma {:induction false} RowScoreIsCount(a: real, y: seq<real>)
    ensures RowScore(a, y) == Below(a, y) as real + Equal(a, y) as real / 2.0
  {
    if y != [] {
      RowScoreIsCount(a, y[1..]);
    }
  }

  /** Adding one entry `b` to the second sample adds its column. */
  lemma {:induction false} PairScoreColumn(x: seq<real>, b: real, y: seq<real>)
    ensures PairScore(x, [b] + y) == PairScore(x, y) + (|x| as real - RowScore(b, x))
  {
    if x != [] {
      PairScoreColumn(x[1..], b, y);
      assert ([b] + y)[1..] == y;
      assert Score(x[0], b) + Score(b, x[0]) == 1.0;
    }
  }

  /** Every pair is won once, or shared: the two directions add up to all pairs. */
  lemma {:induction false} PairsAddUp(x: seq<real>, y: seq<real>)
    ensures PairScore(x, y) + PairScore(y, x) == Pairs(|x|, |y|)
  {
    if x == [] {
      EmptySample(y);
    } else {
      PairsAddUp(x[1..], y);
      assert x == [x[0]] + x[1..];
      PairScoreColumn(y, x[0], x[1..]);
      assert |x| as real * |y| as real == |x[1..]| as real * |y| as real + |y| as real;
    }
  }

  lemma {:induction false} EmptySample(y: seq<real>)
    ensures PairScore(y, []) == 0.0
  {
    if y != [] {
      EmptySample(y[1..]);
    }
  }

  lemma {:induction false} PairScoreSplits(x: seq<real>, y: seq<real>, z: seq<real>)
    ensures PairScore(x, y + z) == PairScore(x, y) + PairScore(x, z)
  {
    if x != [] {
      PairScoreSplits(x[1..], y, z);
      RowScoreIsCount(x[0], y);
      RowScoreIsCount(x[0], z);
      RowScoreIsCount(x[0], y + z);
      CountsSplit(x[0], y, z);
    }
  }

  /** Nothing is won exactly when every entry of the first sample is below every entry of the second. */
  lemma {:induction false} PairScoreIsZero(x: seq<real>, y: seq<real>)
    ensures PairScore(x, y) >= 0.0
    ensures PairScore(x, y) == 0.0 <==> forall i, j | 0 <= i < |x| && 0 <= j < |y| :: x[i] < y[j]
  {
    if x != [] {
      PairScoreIsZero(x[1..], y);
      RowScoreIsZero(x[0], y);
      assert x == [x[0]] + x[1..];
    }
  }

  lemma {:induction false} RowScoreIsZero(a: real, y: seq<real>)
    ensures RowScore(a, y) >= 0.0
    ensures RowScore(a, y) == 0.0 <==> forall j | 0 <= j < |y| :: a < y[j]
  {
    if y != [] {
      RowScoreIsZero(a, y[1..]);
      assert y == [y[0]] + y[1..];
    }
  }

  /** The dominance estimate: the share of pairs that the first sample wins. */
  method A12(x: seq<real>, y: seq<real>) returns (r: Option<real>)
    ensures r == if x == [] || y == [] then None else Some(PairScore(x, y) / (|x| as real * |y| as real))
  {
    if |x| == 0 || |y| == 0 {
      return None;
    }
    var n, m := |x| as real, |y| as real;
    var gt := 0.0;
    for i := 0 to |x|
      invariant gt == PairScore(x[..i], y)
    {
      for j := 0 to |y|
        invariant gt == PairScore(x[..i], y) + RowScore(x[i], y[..j])
      {
        RowScoreAppends(x[i], y[..j], y[j]);
        assert y[..j + 1] == y[..j] + [y[j]];
        gt := gt + if x[i] > y[j] then 1.0 else if x[i] == y[j] then 0.5 else 0.0;
      }
      assert y[..|y|] == y;
      PairScoreAppends(x[..i], x[i], y);
      assert x[..i + 1] == x[..i] + [x[i]];
    }
    assert x[..|x|] == x;
    return Some(gt / (n * m));
  }

  // ---- Ranks ----

  /** The rank of `v` in `s`: the middle of the places its ties take in the sorted list, counted from 1. */
  function MidRank(v: real, s: seq<real>): real {
    Below(v, s) as real + (Equal(v, s) as real + 1.0) / 2.0
  }

  function RankTotal(x: seq<real>, s: seq<real>): real {
    if x == [] then 0.0 else MidRank(x[0], s) + RankTotal(x[1..], s)
  }

  lemma {:induction false} RankTotalAppends(x: seq<real>, a: real, s: seq<real>)
    ensures RankTotal(x + [a], s) == RankTotal(x, s) + MidRank(a, s)
  {
    if x != [] {
      RankTotalAppends(x[1..], a, s);
      assert (x + [a])[1..] == x[1..] + [a];
    } else {
      assert [a][1..] == [];
    }
  }

  lemma {:induction false} RanksArePairs(x: seq<real>, s: seq<real>)
    ensures RankTotal(x, s) == PairScore(x, s) + |x| as real / 2.0
  {
    if x != [] {
      RanksArePairs(x[1..], s);
      RowScoreIsCount(x[0], s);
    }
  }

  /** The rank sum of a sample, less its smallest possible value, is the number of pairs it wins. */
  lemma RankSumIsPairCount(x: seq<real>, y: seq<real>)
    ensures RankTotal(x, x + y) - |x| as real * (|x| as real + 1.0) / 2.0 == PairScore(x, y)
    ensures RankTotal(x, y + x) - |x| as real * (|x| as real + 1.0) / 2.0 == PairScore(x, y)
  {
    RanksArePairs(x, x + y);
    RanksArePairs(x, y + x);
    PairScoreSplits(x, x, y);
    PairScoreSplits(x, y, x);
    PairsAddUp(x, x);
    var n := |x| as real;
    assert n * (n + 1.0) == n * n + n;
  }

  lemma {:induction false} RankTotalIgnoresOrder(x: seq<real>, s: seq<real>, t: seq<real>)
    requires multiset(s) == multiset(t)
    ensures RankTotal(x, s) == RankTotal(x, t)
  {
    if x != [] {
      CountsIgnoreOrder(x[0], s, t);
      RankTotalIgnoresOrder(x[1..], s, t);
    }
  }

  // ---- Ties ----

  /** What one entry adds to the tie total: t^2 - 1, where t entries equal it. A group of t ties adds t^3 - t. */
  function Excess(v: real, s: seq<real>): real {
    Square(Equal(v, s)) - 1.0
  }

  function Square(n: nat): real {
    n as real * n as real
  }

  function TieTotal(part: seq<real>, s: seq<real>): real {
    if part == [] then 0.0 else Excess(part[0], s) + TieTotal(part[1..], s)
  }

  lemma {:induction false} TieTotalSplits(a: seq<real>, b: seq<real>, s: seq<real>)
    ensures TieTotal(a + b, s) == TieTotal(a, s) + TieTotal(b, s)
  {
    hide Excess;
    if a == [] {
      assert a + b == b;
    } else {
      TieTotalSplits(a[1..], b, s);
      assert (a + b)[1..] == a[1..] + b;
    }
  }

  lemma OneMore(k: nat, e: real)
    ensures (k + 1) as real * e == k as real * e + e
  {
    assert (k + 1) as real == k as real + 1.0;
  }

  lemma {:induction false} TieTotalOfRun(run: seq<real>, s: seq<real>, e: real)
    requires forall k | 0 <= k < |run| :: Excess(run[k], s) == e
    ensures TieTotal(run, s) == |run| as real * e
  {
    hide Excess;
    if run != [] {
      TieTotalOfRun(run[1..], s, e);
      OneMore(|run| - 1, e);
    }
  }

  lemma {:induction false} TieTotalIgnoresOrder(p: seq<real>, q: seq<real>, s: seq<real>, t: seq<real>)
    requires multiset(s) == multiset(t) && multiset(p) == multiset(q)
    ensures TieTotal(p, s) == TieTotal(q, t)
    decreases |p|
  {
    if p == [] {
      assert q == [] by { assert |multiset(q)| == |q|; }
    } else {
      hide Excess;
      assert p[0] in multiset(q);
      var k :| 0 <= k < |q| && q[k] == p[0];
      RemoveOne(p, q, k);
      TieTotalIgnoresOrder(p[1..], q[..k] + q[k + 1..], s, t);
      ExcessIgnoresOrder(p[0], s, t);
      TieTotalMiddle(q, k, t);
    }
  }

  lemma ExcessIgnoresOrder(v: real, s: seq<real>, t: seq<real>)
    requires multiset(s) == multiset(t)
    ensures Excess(v, s) == Excess(v, t)
  {
    CountsIgnoreOrder(v, s, t);
  }

  lemma TieTotalMiddle(q: seq<real>, k: nat, s: seq<real>)
    requires k < |q|
    ensures TieTotal(q, s) == TieTotal(q[..k] + q[k + 1..], s) + Excess(q[k], s)
  {
    hide Excess;
    TieTotalSplits(q[..k], q[k + 1..], s);
    TieTotalSplits(q[..k], q[k..], s);
    assert q == q[..k] + q[k..];
    assert q[k..][1..] == q[k + 1..];
  }

  /** The tie total is largest, N^3 - N, exactly when all entries are equal. */
  lemma {:induction false} TieTotalBound(part: seq<real>, s: seq<real>)
    requires forall k | 0 <= k < |part| :: part[k] in s
    ensures TieTotal(part, s) <= |part| as real * (Square(|s|) - 1.0)
    ensures TieTotal(part, s) == |part| as real * (Square(|s|) - 1.0)
       <==> forall k | 0 <= k < |part| :: Equal(part[k], s) == |s|
  {
    hide Equal, Excess, Square;
    if part != [] {
      TieTotalBound(part[1..], s);
      assert part == [part[0]] + part[1..];
      ExcessBound(part[0], s);
      OneMore(|part| - 1, Square(|s|) - 1.0);
    }
  }

  lemma ExcessBound(v: real, s: seq<real>)
    ensures Excess(v, s) <= Square(|s|) - 1.0
    ensures Excess(v, s) == Square(|s|) - 1.0 <==> Equal(v, s) == |s|
  {
    CountsAddUp(v, s);
    var t, n := Equal(v, s) as real, |s| as real;
    assert n * n - t * t == (n - t) * (n + t);
  }

  /** The tie-corrected variance of U. */
  function Variance(x: seq<real>, y: seq<real>): real
    requires x != [] && y != []
  {
    Pairs(|x|, |y|) / 12.0 * TieFactor(|x + y|, TieTotal(x + y, x + y))
  }

  function Pairs(n: nat, m: nat): real {
    n as real * m as real
  }

  /** N + 1, less the correction for ties. */
  function TieFactor(total: nat, ties: real): real
    requires total > 1
  {
    PairsPositive(total, total - 1);
    total as real + 1.0 - ties / Pairs(total, total - 1)
  }

  lemma PairsPositive(n: nat, m: nat)
    requires n > 0 && m > 0
    ensures Pairs(n, m) > 0.0
  {
    var a, b := n as real, m as real;
    assert a * b == (a - 1.0) * b + b;
    assert a >= 1.0 && b >= 1.0;
    NonNegativeProduct(a - 1.0, b);
  }

  lemma NonNegativeProduct(a: real, b: real)
    requires a >= 0.0 && b >= 0.0
    ensures a * b >= 0.0
  {
  }

  lemma TieFactorSign(total: nat, ties: real)
    requires total > 1 && ties <= total as real * (Square(total) - 1.0)
    ensures TieFactor(total, ties) >= 0.0
    ensures TieFactor(total, ties) == 0.0 <==> ties == total as real * (Square(total) - 1.0)
  {
    FullTies(total);
    hide Square;
    PairsPositive(total, total - 1);
    QuotientBound(ties, Pairs(total, total - 1), total as real + 1.0);
  }

  lemma FullTies(n: nat)
    requires n > 0
    ensures n as real * (Square(n) - 1.0) == (n as real + 1.0) * Pairs(n, n - 1)
  {
  }

  /** The tie-corrected variance is never negative, and zero only when all pooled values are equal. */
  lemma VarianceIsNonNegative(x: seq<real>, y: seq<real>)
    requires x != [] && y != []
    ensures Variance(x, y) >= 0.0
    ensures Variance(x, y) == 0.0 <==> forall k | 0 <= k < |x + y| :: (x + y)[k] == (x + y)[0]
  {
    hide TieTotal, TieFactor, Square, Equal, Pairs;
    var s := x + y;
    TieTotalBound(s, s);
    AllOneValue(s);
    TieFactorSign(|s|, TieTotal(s, s));
    PairsPositive(|x|, |y|);
    ProductSign(Pairs(|x|, |y|) / 12.0, TieFactor(|s|, TieTotal(s, s)));
  }

  lemma AllOneValue(s: seq<real>)
    requires s != []
    ensures (forall k | 0 <= k < |s| :: Equal(s[k], s) == |s|) <==> (forall k | 0 <= k < |s| :: s[k] == s[0])
  {
    hide Equal;
    AllEqual(s[0], s);
    if forall k | 0 <= k < |s| :: s[k] == s[0] {
      forall k | 0 <= k < |s| ensures Equal(s[k], s) == |s| {
        assert s[k] == s[0];
      }
    }
    if forall k | 0 <= k < |s| :: Equal(s[k], s) == |s| {
      assert Equal(s[0], s) == |s|;
    }
  }

  lemma QuotientBound(a: real, b: real, c: real)
    requires b > 0.0 && a <= c * b
    ensures a / b <= c && (a / b == c <==> a == c * b)
  {
  }

  lemma ProductSign(a: real, b: real)
    requires a > 0.0 && b >= 0.0
    ensures a * b >= 0.0 && (a * b == 0.0 <==> b == 0.0)
  {
  }
}
