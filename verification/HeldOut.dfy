/**
 The held-out partition of a set of defect ids: a seeded in-place Fisher-Yates shuffle of
 the distinct ids, cut into a blind and a development part.
 */
module HeldOut {
  import opened Wrappers
  import opened Words
  import opened Seeds
  import opened Sorting

  datatype SplitError = BadFraction | TooFewIds | ClampPanics

  datatype Split = Split(development: seq<u64>, blind: seq<u64>)

  function Elements(s: seq<u64>): set<u64> {
    set x | x in s
  }

  // ---- The shuffle ----

  /** Entry i changes places with an entry j <= i drawn from the stream, for i downwards. */
  function Shuffled(s: seq<u64>, i: int, stream: u64): (r: seq<u64>)
    requires i < |s|
    ensures |r| == |s|
    decreases i
  {
    if i < 1 then s
    else
      var j := Mix(stream) % (i + 1);
      Shuffled(s[i := s[j]][j := s[i]], i - 1, WrappingAdd(stream, GOLDEN))
  }

  lemma SwapKeepsMultiset(s: seq<u64>, i: nat, j: nat)
    requires i < |s| && j < |s|
    ensures multiset(s[i := s[j]][j := s[i]]) == multiset(s)
  {
  }

  lemma {:induction false} ShuffledIsPermutation(s: seq<u64>, i: int, stream: u64)
    requires i < |s|
    ensures multiset(Shuffled(s, i, stream)) == multiset(s)
    decreases i
  {
    hide Mix;
    if i >= 1 {
      var j := Mix(stream) % (i + 1);
      SwapKeepsMultiset(s, i, j);
      ShuffledIsPermutation(s[i := s[j]][j := s[i]], i - 1, WrappingAdd(stream, GOLDEN));
    }
  }

  /** The draw for index i of n: the seed stream advances once per index, from the last one down. */
  function Draw(start: u64, n: nat, i: nat): nat
    requires i < n
  {
    Mix(StreamAt(start, n - 1 - i)) % (i + 1)
  }

  function StreamAt(start: u64, k: nat): u64 {
    (start + k * GOLDEN) % M64
  }

  lemma StreamSteps(start: u64, k: nat)
    ensures StreamAt(start, k + 1) == WrappingAdd(StreamAt(start, k), GOLDEN)
    ensures StreamAt(start, 0) == start
  {
    AddMod(start + k * GOLDEN, GOLDEN);
  }

  /** Which entry of the original list the draws at indices m, m - 1, .. put at index i: the one drawn for i, unless that
      place had been filled by an earlier draw with the entry of the index drawn for. */
  function Landing(start: u64, n: nat, m: nat, i: nat): (slot: nat)
    requires i <= m < n
    ensures slot <= m
  {
    if m == 0 then 0
    else if i == m then Draw(start, n, m)
    else
      var slot := Landing(start, n, m - 1, i);
      if slot == Draw(start, n, m) then m else slot
  }

  lemma {:induction false} ShuffledLands(s: seq<u64>, start: u64, n: nat, m: nat, i: nat)
    requires |s| == n && m < n && i < n
    ensures Shuffled(s, m, StreamAt(start, n - 1 - m))[i] == if i > m then s[i] else s[Landing(start, n, m, i)]
    decreases m
  {
    hide Mix, StreamAt;
    if m > 0 {
      var j := Draw(start, n, m);
      var swapped := s[m := s[j]][j := s[m]];
      StreamSteps(start, n - 1 - m);
      ShuffledLands(swapped, start, n, m - 1, i);
    }
  }

  /** What the whole shuffle puts at an index. */
  function DrawnAt(s: seq<u64>, start: u64, i: nat): u64
    requires i < |s|
  {
    s[Landing(start, |s|, |s| - 1, i)]
  }

  lemma ShufflePlaces(s: seq<u64>, start: u64, i: nat)
    requires i < |s|
    ensures Shuffled(s, |s| - 1, start)[i] == DrawnAt(s, start, i)
  {
    hide Mix, Shuffled, StreamAt, Landing;
    StreamSteps(start, 0);
    ShuffledLands(s, start, |s|, |s| - 1, i);
  }

  // ---- The split ----

  /** `f64::round` of a positive number. */
  function Round(x: real): int {
    (x + 0.5).Floor
  }

  /** How many of `n` ids are blind; at least one id stays on each side. */
  function BlindCount(n: nat, fraction: real): (k: nat)
    requires n >= 2
    ensures 1 <= k <= n - 1
  {
    var r := Round(n as real * fraction);
    if r < 1 then 1 else if r > n - 1 then n - 1 else r
  }

  /** The count is the nearest whole number to n * fraction, halves upwards, kept between 1 and n - 1. */
  lemma BlindCountIsNearest(n: nat, fraction: real)
    requires n >= 2
    ensures var k := BlindCount(n, fraction);
      && (k > 1 ==> k as real - 0.5 <= n as real * fraction)
      && (k < n - 1 ==> n as real * fraction < k as real + 0.5)
  {
  }

  /** A permutation of distinct values, cut in two, partitions their set. */
  lemma CutPermutation(s: seq<u64>, p: seq<u64>, k: nat)
    requires Increasing(s) && multiset(p) == multiset(s) && k <= |p|
    ensures Elements(p[..k]) !! Elements(p[k..]) && Elements(p[..k]) + Elements(p[k..]) == Elements(s)
    ensures |Elements(p[..k])| == k && |Elements(p[k..])| == |p| - k
  {
    DistinctPermutes(s, p);
    CutDistinct(p, k);
    forall x ensures x in p <==> x in s {
      assert x in multiset(p) <==> x in multiset(s);
    }
    assert Elements(p) == Elements(s);
  }

  lemma CutDistinct(p: seq<u64>, k: nat)
    requires Distinct(p) && k <= |p|
    ensures Elements(p[..k]) !! Elements(p[k..]) && Elements(p[..k]) + Elements(p[k..]) == Elements(p)
    ensures |Elements(p[..k])| == k && |Elements(p[k..])| == |p| - k
  {
    DistinctSize(p[..k]);
    DistinctSize(p[k..]);
    assert p == p[..k] + p[k..];
  }

  /** The split as a function of ids, fraction and seed alone. Two copies of one id pass the
      length check, which comes before duplicates are removed, and then panic in `clamp`. */
  function SplitResult(defectIds: seq<u64>, fraction: real, seed: u64): Result<Split, SplitError> {
    var sorted := SortedDistinct(defectIds);
    if !(0.0 < fraction < 1.0) then Err(BadFraction)
    else if |defectIds| < 2 then Err(TooFewIds)
    else if |sorted| < 2 then Err(ClampPanics)
    else
      var p := Shuffled(sorted, |sorted| - 1, WrappingAdd(seed, GOLDEN));
      var k := BlindCount(|sorted|, fraction);
      Ok(Split(SortedDistinct(p[k..]), SortedDistinct(p[..k])))
  }

  /** Main result: the split succeeds exactly for a fraction inside (0, 1) and at least two
      DISTINCT ids, and is then a partition of the ids into two nonempty increasing lists.
      The blind size is the whole number nearest to its share, halves upwards, unless that
      would leave a side empty. */
  lemma SplitIsPartition(defectIds: seq<u64>, fraction: real, seed: u64)
    ensures var r, ids := SplitResult(defectIds, fraction, seed), Elements(defectIds);
      && (r.Ok? <==> 0.0 < fraction < 1.0 && |ids| >= 2)
      && (r == Err(ClampPanics) <==> 0.0 < fraction < 1.0 && |defectIds| >= 2 && |ids| < 2)
      && (r.Ok? ==> var Split(development, blind) := r.value;
           && Increasing(blind) && Increasing(development)
           && Elements(blind) !! Elements(development) && Elements(blind) + Elements(development) == ids
           && |blind| + |development| == |ids| && 1 <= |blind| < |ids|
           && (|blind| > 1 ==> |blind| as real - 0.5 <= |ids| as real * fraction)
           && (|blind| < |ids| - 1 ==> |ids| as real * fraction < |blind| as real + 0.5))
  {
    hide Mix, Shuffled, SortedDistinct, BlindCount, Increasing, Elements;
    var sorted := SortedDistinct(defectIds);
    SortedIds(defectIds);
    if |defectIds| < 2 {
      SmallSet(defectIds);
    } else if 0.0 < fraction < 1.0 && |sorted| >= 2 {
      ShuffledIsPermutation(sorted, |sorted| - 1, WrappingAdd(seed, GOLDEN));
      BlindCountIsNearest(|sorted|, fraction);
      CutSorted(sorted, Shuffled(sorted, |sorted| - 1, WrappingAdd(seed, GOLDEN)), BlindCount(|sorted|, fraction));
    }
  }

  lemma SortedIds(ids: seq<u64>)
    ensures var sorted := SortedDistinct(ids);
      Increasing(sorted) && Elements(sorted) == Elements(ids) && |Elements(ids)| == |sorted|
  {
    var sorted := SortedDistinct(ids);
    DistinctSize(sorted);
    assert Elements(sorted) == Elements(ids);
  }

  /** A permutation of an increasing list, cut in two and sorted. */
  lemma CutSorted(s: seq<u64>, p: seq<u64>, k: nat)
    requires Increasing(s) && multiset(p) == multiset(s) && |p| == |s| && k <= |p|
    ensures var blind, development := SortedDistinct(p[..k]), SortedDistinct(p[k..]);
      && Increasing(blind) && Increasing(development) && |blind| == k && |development| == |p| - k
      && Elements(blind) == Elements(p[..k])
      && Elements(blind) !! Elements(development) && Elements(blind) + Elements(development) == Elements(s)
  {
    hide SortedDistinct, Increasing, Elements;
    CutPermutation(s, p, k);
    SortedIds(p[..k]);
    SortedIds(p[k..]);
  }

  /** The blind ids are those that the seed's draws put at the first places of the sorted list. */
  lemma BlindIdsAreDrawn(defectIds: seq<u64>, fraction: real, seed: u64, sorted: seq<u64>, start: u64)
    requires SplitResult(defectIds, fraction, seed).Ok?
    requires Increasing(sorted) && Elements(sorted) == Elements(defectIds) && start == (seed + GOLDEN) % M64
    ensures var blind, n := SplitResult(defectIds, fraction, seed).value.blind, |sorted|;
      0 < |blind| < n && Elements(blind) == set i | 0 <= i < |blind| :: DrawnAt(sorted, start, i)
  {
    hide Mix, Shuffled, SortedDistinct, BlindCount, DrawnAt, Increasing, Elements;
    var own := SortedDistinct(defectIds);
    SortedIds(defectIds);
    SameIncreasing(own, sorted);
    var p, k := Shuffled(own, |own| - 1, start), BlindCount(|own|, fraction);
    ShuffledIsPermutation(own, |own| - 1, start);
    CutSorted(own, p, k);
    DrawnFirst(own, start, k);
  }

  lemma DrawnFirst(s: seq<u64>, start: u64, k: nat)
    requires k <= |s| && s != []
    ensures Elements(Shuffled(s, |s| - 1, start)[..k]) == set i | 0 <= i < k :: DrawnAt(s, start, i)
  {
    hide Shuffled, DrawnAt;
    var first := Shuffled(s, |s| - 1, start)[..k];
    forall i | 0 <= i < k ensures first[i] == DrawnAt(s, start, i) {
      ShufflePlaces(s, start, i);
    }
  }

  lemma SameIncreasing(a: seq<u64>, b: seq<u64>)
    requires Increasing(a) && Increasing(b) && Elements(a) == Elements(b)
    ensures a == b
  {
    forall x ensures x in a <==> x in b {
      assert x in Elements(a) <==> x in a;
      assert x in Elements(b) <==> x in b;
    }
    SameMembers(a, b);
    OrderedIsUnique(a, b, (x: u64, y: u64) => x <= y);
  }

  /** `held_out_split`. */
  method HeldOutSplit(defectIds: seq<u64>, blindFraction: real, seed: u64) returns (r: Result<Split, SplitError>)
    ensures r == SplitResult(defectIds, blindFraction, seed)
  {
    hide Mix, Shuffled, SortedDistinct;
    if !(0.0 < blindFraction < 1.0) {
      return Err(BadFraction);
    }
    if |defectIds| < 2 {
      return Err(TooFewIds);
    }
    var sorted := SortedDistinct(defectIds);
    var len := |sorted|;
    if len < 2 {
      return Err(ClampPanics);
    }
    var blindN := BlindCount(len, blindFraction);
    var ids := new u64[len](i requires 0 <= i < len => sorted[i]);
    assert ids[..] == sorted;
    Shuffle(ids, WrappingAdd(seed, GOLDEN));
    var blind, development := ids[..blindN], ids[blindN..];
    return Ok(Split(SortedDistinct(development), SortedDistinct(blind)));
  }

  lemma SmallSet(s: seq<u64>)
    requires |s| < 2
    ensures |Elements(s)| < 2
  {
    if s != [] {
      assert Elements(s) == {s[0]};
    }
  }

  /** The in-place shuffle. */
  method Shuffle(ids: array<u64>, start: u64)
    requires ids.Length >= 1
    modifies ids
    ensures ids[..] == Shuffled(old(ids[..]), ids.Length - 1, start)
  {
    hide Mix;
    var stream := start;
    var i := ids.Length - 1;
    while i >= 1
      invariant 0 <= i < ids.Length
      invariant Shuffled(ids[..], i, stream) == Shuffled(old(ids[..]), ids.Length - 1, start)
    {
      var j := Mix(stream) % (i + 1);
      stream := WrappingAdd(stream, GOLDEN);
      ghost var before := ids[..];
      ids[i], ids[j] := ids[j], ids[i];
      assert ids[..] == before[i := before[j]][j := before[i]];
      i := i - 1;
    }
  }
}
