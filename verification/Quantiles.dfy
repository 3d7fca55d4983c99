/** The median and the interpolated quartiles of a sample, over exact reals. */
module Quantiles {
  import opened Wrappers
  import opened Sorting
  import opened RankStatistics

  function AtMost(): (real, real) -> bool {
    (a: real, b: real) => a <= b
  }

  function Sorted(v: seq<real>): seq<real> {
    SortBy(v, AtMost())
  }

  lemma SortedAscends(v: seq<real>)
    ensures |Sorted(v)| == |v| && multiset(Sorted(v)) == multiset(v)
    ensures forall i, j | 0 <= i <= j < |v| :: Sorted(v)[i] <= Sorted(v)[j]
  {
    SortByPermutes(v, AtMost());
    SortByOrders(v, AtMost());
    forall i, j | 0 <= i < j < |v| ensures Sorted(v)[i] <= Sorted(v)[j] {
      assert AtMost()(Sorted(v)[i], Sorted(v)[j]);
    }
  }

  /** `median`. */
  function Median(v: seq<real>): Option<real> {
    if v == [] then None
    else
      SortedAscends(v);
      var s, n := Sorted(v), |v|;
      Some(if n % 2 == 1 then s[n / 2] else (s[n / 2 - 1] + s[n / 2]) / 2.0)
  }

  /** The value at fractional place `pos` of an ascending list, between its two neighbours. */
  function Interpolated(s: seq<real>, pos: real): real
    requires s != [] && 0.0 <= pos <= (|s| - 1) as real
  {
    var lo, hi := pos.Floor, Ceiling(pos);
    if lo == hi then s[lo]
    else
      var frac := pos - lo as real;
      s[lo] * (1.0 - frac) + s[hi] * frac
  }

  function Ceiling(pos: real): (c: int)
    ensures pos <= c as real < pos + 1.0
  {
    -((-pos).Floor)
  }

  /** `quartiles`. */
  function Quartiles(v: seq<real>): Option<(real, real, real)> {
    if |v| < 2 then None
    else
      SortedAscends(v);
      var s, last := Sorted(v), (|v| - 1) as real;
      Some((Interpolated(s, 0.25 * last), Interpolated(s, 0.5 * last), Interpolated(s, 0.75 * last)))
  }

  // ---- Order does not matter ----

  lemma SortedIgnoresOrder(v: seq<real>, w: seq<real>)
    requires multiset(v) == multiset(w)
    ensures Sorted(v) == Sorted(w)
  {
    SortByPermutes(v, AtMost());
    SortByPermutes(w, AtMost());
    SortByOrders(v, AtMost());
    SortByOrders(w, AtMost());
    OrderedIsUnique(Sorted(v), Sorted(w), AtMost());
  }

  lemma QuantilesIgnoreOrder(v: seq<real>, w: seq<real>)
    requires multiset(v) == multiset(w)
    ensures Median(v) == Median(w) && Quartiles(v) == Quartiles(w)
  {
    SortedIgnoresOrder(v, w);
    assert |multiset(v)| == |v| && |multiset(w)| == |w|;
    assert v == [] <==> w == [];
  }

  // ---- What the median means ----

  lemma PrefixNotAbove(s: seq<real>, k: nat, m: real)
    requires k <= |s| && forall i | 0 <= i < k :: s[i] <= m
    ensures Above(m, s) <= |s| - k
  {
    hide Above;
    assert s == s[..k] + s[k..];
    CountsSplit(m, s[..k], s[k..]);
    NoneAbove(m, s[..k]);
    CountsAddUp(m, s[k..]);
  }

  lemma SuffixNotBelow(s: seq<real>, k: nat, m: real)
    requires k <= |s| && forall i | k <= i < |s| :: m <= s[i]
    ensures Below(m, s) <= k
  {
    hide Below;
    assert s == s[..k] + s[k..];
    CountsSplit(m, s[..k], s[k..]);
    NoneBelow(m, s[k..]);
    CountsAddUp(m, s[..k]);
  }

  lemma {:induction false} NoneAbove(m: real, s: seq<real>)
    requires forall i | 0 <= i < |s| :: s[i] <= m
    ensures Above(m, s) == 0
  {
    if s != [] { NoneAbove(m, s[1..]); }
  }

  lemma {:induction false} NoneBelow(m: real, s: seq<real>)
    requires forall i | 0 <= i < |s| :: m <= s[i]
    ensures Below(m, s) == 0
  {
    if s != [] { NoneBelow(m, s[1..]); }
  }

  /** At most half of the observations lie on either side of the median. */
  lemma MedianSplitsInHalf(v: seq<real>)
    requires v != []
    ensures Median(v).Some? && 2 * Below(Median(v).value, v) <= |v| && 2 * Above(Median(v).value, v) <= |v|
  {
    hide Below, Above;
    SortedAscends(v);
    var s, n, m := Sorted(v), |v|, Median(v).value;
    if n % 2 == 0 {
      assert s[n / 2 - 1] <= m <= s[n / 2];
    }
    SuffixNotBelow(s, n / 2, m);
    PrefixNotAbove(s, (n + 1) / 2, m);
    CountsIgnoreOrder(m, s, v);
  }

  // ---- What the quartiles mean ----

  predicate AscendingList(s: seq<real>) {
    forall i, j | 0 <= i <= j < |s| :: s[i] <= s[j]
  }

  /** The interpolated value lies between the entries around its place. */
  lemma InterpolatedBetween(s: seq<real>, pos: real)
    requires s != [] && AscendingList(s) && 0.0 <= pos <= (|s| - 1) as real
    ensures s[pos.Floor] <= Interpolated(s, pos) <= s[Ceiling(pos)]
  {
    var lo, hi := pos.Floor, Ceiling(pos);
    assert s[lo] <= s[hi];
    Blend(s[lo], s[hi], pos - lo as real);
  }

  lemma Blend(a: real, b: real, f: real)
    requires a <= b && 0.0 <= f < 1.0
    ensures a <= a * (1.0 - f) + b * f <= b
  {
    var d := b - a;
    Scale(d, f);
    BlendIs(a, b, f);
    var blended := a + d * f;
    assert a <= blended <= b;
  }

  lemma BlendIs(a: real, b: real, f: real)
    ensures a * (1.0 - f) + b * f == a + (b - a) * f
  {
  }

  lemma Scale(d: real, f: real)
    requires d >= 0.0 && 0.0 <= f <= 1.0
    ensures 0.0 <= d * f <= d
  {
    NonNegativeProduct(d, 1.0 - f);
  }

  lemma BlendGrows(a: real, b: real, f: real, g: real)
    requires a <= b && 0.0 <= f <= g
    ensures a * (1.0 - f) + b * f <= a * (1.0 - g) + b * g
  {
    BlendIs(a, b, f);
    BlendIs(a, b, g);
    NonNegativeProduct(b - a, g - f);
  }

  /** A later place never has a smaller value. */
  lemma InterpolatedGrows(s: seq<real>, p: real, q: real)
    requires s != [] && AscendingList(s) && 0.0 <= p <= q <= (|s| - 1) as real
    ensures Interpolated(s, p) <= Interpolated(s, q)
  {
    InterpolatedBetween(s, p);
    InterpolatedBetween(s, q);
    if Ceiling(p) <= q.Floor {
      assert s[Ceiling(p)] <= s[q.Floor];
    } else {
      assert p.Floor == q.Floor && (p != p.Floor as real ==> Ceiling(p) == Ceiling(q));
      BlendGrows(s[p.Floor], s[Ceiling(q)], p - p.Floor as real, q - p.Floor as real);
    }
  }

  /** The middle quartile is the median, and the quartiles are in order. */
  lemma QuartilesAreOrdered(v: seq<real>)
    requires |v| >= 2
    ensures Quartiles(v).Some? && Median(v) == Some(Quartiles(v).value.1)
    ensures Quartiles(v).value.0 <= Quartiles(v).value.1 <= Quartiles(v).value.2
  {
    SortedAscends(v);
    var s, last := Sorted(v), (|v| - 1) as real;
    hide Interpolated, AscendingList;
    assert AscendingList(s) by { Ascends(s); }
    InterpolatedGrows(s, 0.25 * last, 0.5 * last);
    InterpolatedGrows(s, 0.5 * last, 0.75 * last);
    MiddleIsMedian(s);
  }

  lemma Ascends(s: seq<real>)
    requires forall i, j | 0 <= i <= j < |s| :: s[i] <= s[j]
    ensures AscendingList(s)
  {
  }

  lemma MiddleIsMedian(s: seq<real>)
    requires s != []
    ensures Interpolated(s, 0.5 * (|s| - 1) as real)
         == if |s| % 2 == 1 then s[|s| / 2] else (s[|s| / 2 - 1] + s[|s| / 2]) / 2.0
  {
    var half, pos := |s| / 2, 0.5 * (|s| - 1) as real;
    if |s| % 2 == 1 {
      assert |s| - 1 == 2 * half;
      assert pos == half as real;
    } else {
      assert |s| - 1 == 2 * half - 1;
      assert pos == (half - 1) as real + 0.5;
      assert pos.Floor == half - 1 && Ceiling(pos) == half;
    }
  }

  lemma InterpolatedCounts(v: seq<real>, pos: real)
    requires v != [] && 0.0 <= pos <= (|v| - 1) as real
    ensures |Sorted(v)| == |v|
    ensures var q := Interpolated(Sorted(v), pos);
      Below(q, v) <= Ceiling(pos) && Above(q, v) <= |v| - 1 - pos.Floor
  {
    hide Below, Above, Interpolated;
    SortedAscends(v);
    var s := Sorted(v);
    var q := Interpolated(s, pos);
    Ascends(s);
    InterpolatedBetween(s, pos);
    SuffixNotBelow(s, Ceiling(pos), q);
    PrefixNotAbove(s, pos.Floor + 1, q);
    CountsIgnoreOrder(q, s, v);
  }

  /** At most about a quarter of the observations lie outside either outer quartile, and three quarters inside. */
  lemma QuartilesSplitInQuarters(v: seq<real>)
    requires |v| >= 2
    ensures var (q1, _, q3) := Quartiles(v).value;
      && 4 * Below(q1, v) <= |v| + 2 && 4 * Above(q1, v) <= 3 * |v|
      && 4 * Below(q3, v) <= 3 * |v| && 4 * Above(q3, v) <= |v| + 2
  {
    hide Below, Above, Interpolated;
    var last := (|v| - 1) as real;
    InterpolatedCounts(v, 0.25 * last);
    InterpolatedCounts(v, 0.75 * last);
    Quartered(|v| - 1, 0.25 * last, 1);
    Quartered(|v| - 1, 0.75 * last, 3);
  }

  lemma Quartered(n: nat, pos: real, k: nat)
    requires 4.0 * pos == (k * n) as real
    ensures 4 * pos.Floor >= k * n - 3 && 4 * Ceiling(pos) <= k * n + 3
  {
  }

  function Line(a: real, d: real, t: real): real {
    a + d * t
  }

  /** On evenly spaced observations the quartiles lie exactly a quarter, a half and three quarters of the way. */
  lemma QuartilesOfEvenlySpaced(v: seq<real>, a: real, d: real)
    requires |v| >= 2 && |Sorted(v)| == |v| && forall i | 0 <= i < |v| :: Sorted(v)[i] == Line(a, d, i as real)
    ensures var last := (|v| - 1) as real;
      Quartiles(v) == Some((Line(a, d, 0.25 * last), Line(a, d, 0.5 * last), Line(a, d, 0.75 * last)))
  {
    hide Interpolated, Line, Sorted;
    var s, last := Sorted(v), (|v| - 1) as real;
    InterpolatedLine(s, a, d, 0.25 * last);
    InterpolatedLine(s, a, d, 0.5 * last);
    InterpolatedLine(s, a, d, 0.75 * last);
  }

  lemma InterpolatedLine(s: seq<real>, a: real, d: real, pos: real)
    requires s != [] && 0.0 <= pos <= (|s| - 1) as real && forall i | 0 <= i < |s| :: s[i] == Line(a, d, i as real)
    ensures Interpolated(s, pos) == Line(a, d, pos)
  {
    hide Line;
    var lo, hi := pos.Floor, Ceiling(pos);
    if lo == hi {
      assert pos == lo as real;
    } else {
      assert hi == lo + 1 && hi as real == lo as real + 1.0;
      BlendOfLine(a, d, lo as real, pos - lo as real, pos);
    }
  }

  lemma BlendOfLine(a: real, d: real, lo: real, f: real, pos: real)
    requires pos == lo + f
    ensures Line(a, d, lo) * (1.0 - f) + Line(a, d, lo + 1.0) * f == Line(a, d, pos)
  {
    var p, q := Line(a, d, lo), Line(a, d, lo + 1.0);
    BlendIs(p, q, f);
    assert q - p == d;
    assert d * (lo + f) == d * lo + d * f;
  }
}
