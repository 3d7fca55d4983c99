/** Corpus minimization: greedy set cover, its coverage, its quality and its determinism. */
module CorpusMinimize {
  import opened Arithmetic
  import opened Sorting

  type Feature = nat
  type Id = nat

  datatype Candidate = Candidate(id: Id, features: seq<Feature>, size: nat)

  function Listed(features: seq<Feature>): set<Feature> {
    set f | f in features
  }

  function FeatureSet(c: Candidate): set<Feature> {
    Listed(c.features)
  }

  /** How many listed features are uncovered; a feature listed twice counts twice. */
  function Contribution(features: seq<Feature>, covered: set<Feature>): nat {
    if features == [] then 0
    else (if features[0] in covered then 0 else 1) + Contribution(features[1..], covered)
  }

  lemma ListedSplits(features: seq<Feature>)
    requires features != []
    ensures Listed(features) == {features[0]} + Listed(features[1..])
    ensures Distinct(features) ==> features[0] !in Listed(features[1..]) && Distinct(features[1..])
  {
    assert features == [features[0]] + features[1..];
  }

  lemma {:induction false} ContributionCounts(features: seq<Feature>, covered: set<Feature>)
    ensures Contribution(features, covered) == 0 <==> Listed(features) <= covered
    ensures Distinct(features) ==> Contribution(features, covered) == |Listed(features) - covered|
  {
    if features == [] {
      assert Listed(features) == {};
    } else {
      hide Listed, Distinct;
      var first, rest := features[0], features[1..];
      ListedSplits(features);
      ContributionCounts(rest, covered);
      var before := Listed(rest) - covered;
      if first in covered {
        assert Listed(features) - covered == before;
      } else {
        assert Listed(features) - covered == before + {first};
        assert first !in Listed(rest) ==> |before + {first}| == |before| + 1;
      }
    }
  }

  /** The sort key: contribution descending, then size and id ascending. */
  predicate Precedes(a: Candidate, b: Candidate, covered: set<Feature>) {
    var ca, cb := Contribution(a.features, covered), Contribution(b.features, covered);
    ca > cb || (ca == cb && (a.size < b.size || (a.size == b.size && a.id <= b.id)))
  }

  function ByKey(covered: set<Feature>): (Candidate, Candidate) -> bool {
    (a, b) => Precedes(a, b, covered)
  }

  lemma KeyIsTotal(covered: set<Feature>)
    ensures TotalOrder(ByKey(covered))
  {
  }

  // ---- What a greedy run is ----

  function Covered(picks: seq<Candidate>): set<Feature> {
    if picks == [] then {} else Covered(picks[..|picks| - 1]) + FeatureSet(picks[|picks| - 1])
  }

  /** All features of all candidates. */
  function Universe(candidates: multiset<Candidate>): set<Feature> {
    set c, f | c in candidates && f in FeatureSet(c) :: f
  }

  /** `c` is the best of `remaining`, and adds something. */
  ghost predicate Best(c: Candidate, remaining: multiset<Candidate>, covered: set<Feature>) {
    && c in remaining && (forall d | d in remaining :: Precedes(c, d, covered))
    && Contribution(c.features, covered) > 0
  }

  /** Every pick is the best remaining candidate. */
  ghost predicate Greedy(candidates: multiset<Candidate>, picks: seq<Candidate>) {
    multiset(picks) <= candidates
    && forall j | 0 <= j < |picks| :: Best(picks[j], candidates - multiset(picks[..j]), Covered(picks[..j]))
  }

  /** How many features a candidate would add. */
  function Gain(c: Candidate, covered: set<Feature>): nat {
    |(set f | f in c.features) - covered|
  }

  /** Each pick adds something; among the candidates remaining when it was taken none adds more, none that adds as many
      is smaller, and none that adds as many at the same size has a lower id. */
  ghost predicate TakesTheBest(candidates: multiset<Candidate>, picks: seq<Candidate>) {
    multiset(picks) <= candidates
    && forall j, d | 0 <= j < |picks| && d in candidates - multiset(picks[..j]) ::
         var c, covered := picks[j], Covered(picks[..j]);
         && Gain(c, covered) > 0
         && Gain(d, covered) <= Gain(c, covered)
         && (Gain(d, covered) == Gain(c, covered) ==> d.size >= c.size)
         && (Gain(d, covered) == Gain(c, covered) && d.size == c.size ==> d.id >= c.id)
  }

  /** Over duplicate-free feature lists the sort key ranks by features gained, then size, then id. */
  lemma GreedyTakesTheBest(candidates: multiset<Candidate>, picks: seq<Candidate>)
    requires Greedy(candidates, picks) && forall c | c in candidates :: Distinct(c.features)
    ensures TakesTheBest(candidates, picks)
  {
    hide Covered, Contribution;
    forall j, d | 0 <= j < |picks| && d in candidates - multiset(picks[..j])
      ensures var c, covered := picks[j], Covered(picks[..j]);
        Gain(c, covered) == Contribution(c.features, covered) && Gain(d, covered) == Contribution(d.features, covered)
        && Precedes(c, d, covered) && Contribution(c.features, covered) > 0
    {
      var c, covered := picks[j], Covered(picks[..j]);
      assert Best(c, candidates - multiset(picks[..j]), covered);
      ContributionCounts(c.features, covered);
      ContributionCounts(d.features, covered);
    }
    hide Gain;
  }

  /** The features covered by a list of picks are those that some pick lists. */
  lemma {:induction false} CoveredIsUnion(picks: seq<Candidate>, f: Feature)
    ensures f in Covered(picks) <==> exists c :: c in picks && f in c.features
  {
    if picks != [] {
      var n := |picks| - 1;
      CoveredIsUnion(picks[..n], f);
      assert picks == picks[..n] + [picks[n]];
    }
  }

  lemma {:induction false} CoveredContains(picks: seq<Candidate>, c: Candidate)
    requires c in picks
    ensures FeatureSet(c) <= Covered(picks)
  {
    var n := |picks| - 1;
    if c != picks[n] {
      assert picks == picks[..n] + [picks[n]];
      CoveredContains(picks[..n], c);
    }
  }

  lemma {:induction false} CoveredWithin(candidates: multiset<Candidate>, picks: seq<Candidate>)
    requires multiset(picks) <= candidates
    ensures Covered(picks) <= Universe(candidates)
  {
    if picks != [] {
      var n := |picks| - 1;
      assert picks == picks[..n] + [picks[n]];
      CoveredWithin(candidates, picks[..n]);
      assert picks[n] in candidates;
    }
  }

  /** While something is uncovered, some remaining candidate adds something. */
  lemma SomethingLeft(candidates: multiset<Candidate>, picks: seq<Candidate>) returns (d: Candidate)
    requires multiset(picks) <= candidates && Covered(picks) != Universe(candidates)
    ensures d in candidates - multiset(picks) && Contribution(d.features, Covered(picks)) > 0
  {
    CoveredWithin(candidates, picks);
    var f :| f in Universe(candidates) && f !in Covered(picks);
    d :| d in candidates && f in FeatureSet(d);
    assert d !in picks by {
      if d in picks { CoveredContains(picks, d); }
    }
    ContributionCounts(d.features, Covered(picks));
  }

  lemma BestContributes(candidates: multiset<Candidate>, picks: seq<Candidate>, c: Candidate)
    requires multiset(picks) <= candidates && Covered(picks) != Universe(candidates)
    requires forall d | d in candidates - multiset(picks) :: Precedes(c, d, Covered(picks))
    ensures Contribution(c.features, Covered(picks)) > 0
  {
    var d := SomethingLeft(candidates, picks);
    assert Precedes(c, d, Covered(picks));
  }

  lemma NoSmallerIsAll(a: set<Feature>, b: set<Feature>)
    requires a <= b && |b| <= |a|
    ensures a == b
  {
    assert b == a + (b - a);
  }

  lemma GreedyExtends(candidates: multiset<Candidate>, picks: seq<Candidate>, c: Candidate)
    requires Greedy(candidates, picks) && Best(c, candidates - multiset(picks), Covered(picks))
    ensures Greedy(candidates, picks + [c])
  {
    hide Best;
    var more := picks + [c];
    forall j | 0 <= j < |more| ensures Best(more[j], candidates - multiset(more[..j]), Covered(more[..j])) {
      if j == |picks| {
        assert more[..j] == picks;
      } else {
        assert more[..j] == picks[..j];
      }
    }
    assert multiset(more) <= candidates by { BestIsMember(c, candidates, picks); }
  }

  lemma BestIsMember(c: Candidate, candidates: multiset<Candidate>, picks: seq<Candidate>)
    requires multiset(picks) <= candidates && Best(c, candidates - multiset(picks), Covered(picks))
    ensures multiset(picks + [c]) <= candidates
  {
    assert multiset(picks + [c]) == multiset(picks) + multiset{c};
  }

  function Ids(picks: seq<Candidate>): (r: seq<Id>)
    ensures |r| == |picks|
  {
    seq(|picks|, i requires 0 <= i < |picks| => picks[i].id)
  }

  /** One round: the head of the sorted list adds something, and picking it keeps the run greedy. */
  lemma RoundKeepsGreedy(candidates: multiset<Candidate>, picks: seq<Candidate>, remaining: seq<Candidate>,
                         sorted: seq<Candidate>)
    requires Greedy(candidates, picks) && Covered(picks) != Universe(candidates)
    requires remaining != [] && multiset(remaining) == candidates - multiset(picks)
    requires sorted == SortBy(remaining, ByKey(Covered(picks)))
    ensures |sorted| == |remaining| && Contribution(sorted[0].features, Covered(picks)) > 0
    ensures Greedy(candidates, picks + [sorted[0]])
    ensures multiset(sorted[1..]) == candidates - multiset(picks + [sorted[0]])
    ensures Covered(picks + [sorted[0]]) == Covered(picks) + FeatureSet(sorted[0]) <= Universe(candidates)
  {
    hide *;
    SortedHead(candidates, picks, remaining, sorted);
    BestContributes(candidates, picks, sorted[0]) by { GreedyWithin(candidates, picks); }
    GreedyTakes(candidates, picks, sorted[0]);
  }

  lemma SortedHead(candidates: multiset<Candidate>, picks: seq<Candidate>, remaining: seq<Candidate>,
                   sorted: seq<Candidate>)
    requires remaining != [] && multiset(remaining) == candidates - multiset(picks)
    requires sorted == SortBy(remaining, ByKey(Covered(picks)))
    ensures |sorted| == |remaining| && sorted[0] in candidates - multiset(picks)
    ensures forall d | d in candidates - multiset(picks) :: Precedes(sorted[0], d, Covered(picks))
    ensures multiset(sorted[1..]) == candidates - multiset(picks + [sorted[0]])
  {
    hide Precedes, Covered, SortBy, TotalOrder;
    var le := ByKey(Covered(picks));
    SortByPermutes(remaining, le);
    KeyIsTotal(Covered(picks));
    SortByOrders(remaining, le);
    HeadAndTail(sorted);
    forall d | d in candidates - multiset(picks) ensures Precedes(sorted[0], d, Covered(picks)) {
      assert d in multiset(sorted);
      PrecedesItself(d, Covered(picks));
      assert d == sorted[0] || le(sorted[0], d);
    }
    assert multiset(picks + [sorted[0]]) == multiset(picks) + multiset{sorted[0]};
  }

  lemma PrecedesItself(c: Candidate, covered: set<Feature>)
    ensures Precedes(c, c, covered)
  {
  }

  lemma HeadAndTail(s: seq<Candidate>)
    requires s != []
    ensures s[0] in multiset(s) && multiset(s[1..]) == multiset(s) - multiset{s[0]}
  {
    assert s == [s[0]] + s[1..];
  }

  lemma GreedyTakes(candidates: multiset<Candidate>, picks: seq<Candidate>, best: Candidate)
    requires Greedy(candidates, picks) && best in candidates - multiset(picks)
    requires forall d | d in candidates - multiset(picks) :: Precedes(best, d, Covered(picks))
    requires Contribution(best.features, Covered(picks)) > 0
    ensures Greedy(candidates, picks + [best])
    ensures Covered(picks + [best]) == Covered(picks) + FeatureSet(best) <= Universe(candidates)
  {
    hide Universe, Covered, Precedes, FeatureSet, Greedy, Contribution;
    GreedyExtends(candidates, picks, best);
    assert (picks + [best])[..|picks|] == picks && (picks + [best])[..|picks| + 1] == picks + [best];
    CoverGrows(picks + [best], |picks|);
    GreedyWithin(candidates, picks + [best]);
    CoveredWithin(candidates, picks + [best]);
  }

  lemma GreedyWithin(candidates: multiset<Candidate>, picks: seq<Candidate>)
    requires Greedy(candidates, picks)
    ensures multiset(picks) <= candidates
  {
  }

  /** `minimize_corpus`. The picks are greedy, they cover everything any candidate covers,
      and the search never stops at a candidate that adds nothing. */
  method MinimizeCorpus(candidates: seq<Candidate>) returns (chosen: seq<Id>, picks: seq<Candidate>, stalled: bool)
    ensures chosen == Ids(picks) && Greedy(multiset(candidates), picks)
    ensures Covered(picks) == Universe(multiset(candidates)) && !stalled
    ensures (forall c | c in candidates :: Distinct(c.features)) ==> TakesTheBest(multiset(candidates), picks)
  {
    hide Precedes, Greedy, Covered, SortBy, Contribution, FeatureSet, TakesTheBest, Distinct;
    var universe := set c, f | c in candidates && f in FeatureSet(c) :: f;
    ghost var all := multiset(candidates);
    assert universe == Universe(all);
    hide Universe;
    EmptyRun(all);
    chosen, picks, stalled := [], [], false;
    if universe == {} {
      NothingTaken(all);
      return;
    }
    var covered: set<Feature> := {};
    var remaining := candidates;
    while remaining != [] && |covered| < |universe|
      invariant covered == Covered(picks) <= universe && chosen == Ids(picks)
      invariant Greedy(all, picks) && multiset(remaining) == all - multiset(picks) && !stalled
      decreases |remaining|
    {
      var sorted := SortBy(remaining, ByKey(covered));
      RoundKeepsGreedy(all, picks, remaining, sorted);
      var best := sorted[0];
      remaining := sorted[1..];
      if Contribution(best.features, covered) == 0 {
        stalled := true;
        break;
      }
      covered := covered + FeatureSet(best);
      chosen := chosen + [best.id];
      picks := picks + [best];
    }
    if remaining == [] {
      NothingLeft(all, picks);
    } else {
      NoSmallerIsAll(covered, universe);
    }
    if forall c | c in candidates :: Distinct(c.features) {
      assert forall c | c in all :: Distinct(c.features);
      GreedyTakesTheBest(all, picks);
    }
  }

  lemma NothingTaken(candidates: multiset<Candidate>)
    ensures TakesTheBest(candidates, [])
  {
  }

  lemma EmptyRun(candidates: multiset<Candidate>)
    ensures Greedy(candidates, []) && Covered([]) == {} && candidates - multiset([]) == candidates
  {
  }

  lemma NothingLeft(candidates: multiset<Candidate>, picks: seq<Candidate>)
    requires Greedy(candidates, picks) && candidates - multiset(picks) == multiset{}
    ensures Covered(picks) == Universe(candidates)
  {
    if Covered(picks) != Universe(candidates) {
      var d := SomethingLeft(candidates, picks);
    }
  }

  // ---- How good a greedy run is ----

  function Pow(b: nat, e: nat): nat {
    if e == 0 then 1 else b * Pow(b, e - 1)
  }

  function Union(cover: set<Candidate>): set<Feature> {
    set c, f | c in cover && f in FeatureSet(c) :: f
  }

  /** Sets that each leave at most `m` features uncovered-by-`covered` together leave at most `|cover| * m`. */
  lemma {:induction false} UnionBound(cover: set<Candidate>, covered: set<Feature>, m: nat)
    requires forall c | c in cover :: |FeatureSet(c) - covered| <= m
    ensures |Union(cover) - covered| <= |cover| * m
    decreases |cover|
  {
    if cover == {} {
      assert Union(cover) == {};
    } else {
      hide FeatureSet, Union;
      var c :| c in cover;
      var rest := cover - {c};
      assert |cover| == |rest| + 1;
      UnionBound(rest, covered, m);
      UnionSplits(cover, c, covered);
      SizeOfSum(Union(rest) - covered, FeatureSet(c) - covered);
      OneMore(|cover|, |rest|, m);
    }
  }

  lemma OneMore(k: nat, l: nat, m: nat)
    requires k == l + 1
    ensures k * m == l * m + m
  {
  }

  lemma UnionSplits(cover: set<Candidate>, c: Candidate, covered: set<Feature>)
    requires c in cover
    ensures Union(cover) - covered == (Union(cover - {c}) - covered) + (FeatureSet(c) - covered)
  {
    hide FeatureSet;
  }

  lemma SizeOfSum(x: set<Feature>, y: set<Feature>)
    ensures |x + y| <= |x| + |y|
  {
    assert |x + y| + |x * y| == |x| + |y|;
  }

  /** One greedy pick closes at least a `1/k` share of what is still uncovered, if some `k` candidates cover all. */
  lemma PickClosesItsShare(candidates: multiset<Candidate>, picks: seq<Candidate>, cover: set<Candidate>, j: nat)
    requires Greedy(candidates, picks) && j < |picks|
    requires forall c | c in candidates :: Distinct(c.features)
    requires (forall c | c in cover :: c in candidates) && Union(cover) == Universe(candidates)
    ensures |Universe(candidates) - Covered(picks[..j])|
         <= |cover| * (|Universe(candidates) - Covered(picks[..j])| - |Universe(candidates) - Covered(picks[..j + 1])|)
  {
    hide FeatureSet, Union, Universe, Distinct, Precedes;
    var done, pick := picks[..j], picks[j];
    var covered, all := Covered(done), Universe(candidates);
    var m := Contribution(pick.features, covered);
    assert Best(pick, candidates - multiset(done), covered);
    forall c | c in cover ensures |FeatureSet(c) - covered| <= m {
      NoBetter(candidates, done, pick, c);
    }
    UnionBound(cover, covered, m);
    PickRemoves(candidates, picks, j);
    MulMonotone(m, |all - covered| - |all - Covered(picks[..j + 1])|, |cover|);
  }

  /** A candidate adds at most what the best remaining one adds. */
  lemma NoBetter(candidates: multiset<Candidate>, done: seq<Candidate>, pick: Candidate, c: Candidate)
    requires c in candidates && Distinct(c.features)
    requires forall d | d in candidates - multiset(done) :: Precedes(pick, d, Covered(done))
    ensures |FeatureSet(c) - Covered(done)| <= Contribution(pick.features, Covered(done))
  {
    hide Listed, Distinct;
    ContributionCounts(c.features, Covered(done));
    if c in done {
      CoveredContains(done, c);
      assert FeatureSet(c) - Covered(done) == {};
    } else {
      assert c in candidates - multiset(done);
      assert Precedes(pick, c, Covered(done));
    }
  }

  lemma PickRemoves(candidates: multiset<Candidate>, picks: seq<Candidate>, j: nat)
    requires j < |picks| && picks[j] in candidates && Distinct(picks[j].features)
    ensures |Universe(candidates) - Covered(picks[..j])| - |Universe(candidates) - Covered(picks[..j + 1])|
         == Contribution(picks[j].features, Covered(picks[..j]))
  {
    var pick, covered, all := picks[j], Covered(picks[..j]), Universe(candidates);
    CoverGrows(picks, j);
    assert FeatureSet(pick) <= all;
    hide Universe, Covered, Listed, Contribution, Distinct;
    ContributionCounts(pick.features, covered);
    var after := all - Covered(picks[..j + 1]);
    assert all - covered == after + (Listed(pick.features) - covered);
    assert after !! (Listed(pick.features) - covered);
  }

  lemma CoverGrows(picks: seq<Candidate>, j: nat)
    requires j < |picks|
    ensures Covered(picks[..j + 1]) == Covered(picks[..j]) + FeatureSet(picks[j])
  {
    assert picks[..j + 1][..j] == picks[..j];
  }

  /** The greedy guarantee: if `k` candidates cover the universe of `n` features, after `j` picks
      at most `n * ((k - 1) / k)^j` are uncovered. */
  lemma {:induction false} GreedyQuality(candidates: multiset<Candidate>, picks: seq<Candidate>,
                                         cover: set<Candidate>, j: nat)
    requires Greedy(candidates, picks) && j <= |picks|
    requires forall c | c in candidates :: Distinct(c.features)
    requires cover != {} && (forall c | c in cover :: c in candidates) && Union(cover) == Universe(candidates)
    ensures |Universe(candidates) - Covered(picks[..j])| * Pow(|cover|, j) <= |Universe(candidates)| * Pow(|cover| - 1, j)
  {
    hide Greedy, Covered, Universe, Union, Distinct;
    if j == 0 {
      assert |Universe(candidates) - Covered(picks[..j])| <= |Universe(candidates)| by {
        assert Universe(candidates) == (Universe(candidates) - Covered(picks[..j])) + (Universe(candidates) * Covered(picks[..j]));
      }
    } else {
      GreedyQuality(candidates, picks, cover, j - 1);
      PickClosesItsShare(candidates, picks, cover, j - 1);
      ShareStep(|Universe(candidates) - Covered(picks[..j - 1])|, |Universe(candidates) - Covered(picks[..j])|,
                |cover|, Pow(|cover|, j - 1), |Universe(candidates)| * Pow(|cover| - 1, j - 1));
      assert (|cover| - 1) * (|Universe(candidates)| * Pow(|cover| - 1, j - 1))
          == |Universe(candidates)| * ((|cover| - 1) * Pow(|cover| - 1, j - 1)) by {
        Swap(|cover| - 1, |Universe(candidates)|, Pow(|cover| - 1, j - 1));
      }
    }
  }

  lemma Swap(a: int, b: int, c: int)
    ensures a * (b * c) == b * (a * c)
  {
  }

  lemma ShareStep(before: nat, after: nat, k: nat, p: nat, bound: nat)
    requires k >= 1 && before <= k * (before - after) && before * p <= bound
    ensures after * (k * p) <= (k - 1) * bound
  {
    assert k * after <= (k - 1) * before by { Distribute(before, after, k); Distribute(k, 1, before); }
    MulMonotone(k * after, (k - 1) * before, p);
    assert (k * after) * p == after * (k * p);
    assert ((k - 1) * before) * p == (k - 1) * (before * p);
    MulMonotone(before * p, bound, k - 1);
  }

  /** A bound on the length of the result: once `n * (k - 1)^j < k^j`, at most `j` candidates are chosen. */
  lemma GreedyLength(candidates: multiset<Candidate>, picks: seq<Candidate>, cover: set<Candidate>, j: nat)
    requires Greedy(candidates, picks)
    requires forall c | c in candidates :: Distinct(c.features)
    requires cover != {} && (forall c | c in cover :: c in candidates) && Union(cover) == Universe(candidates)
    requires |Universe(candidates)| * Pow(|cover| - 1, j) < Pow(|cover|, j)
    ensures |picks| <= j
  {
    if |picks| > j {
      hide *;
      GreedyQuality(candidates, picks, cover, j);
      var f := PickIsNew(candidates, picks, j);
      var left := Universe(candidates) - Covered(picks[..j]);
      assert f in left;
      MulMonotone(1, |left|, Pow(|cover|, j));
    }
  }

  /** Every pick covers a feature of the universe that no earlier pick covers. */
  lemma PickIsNew(candidates: multiset<Candidate>, picks: seq<Candidate>, j: nat) returns (f: Feature)
    requires Greedy(candidates, picks) && j < |picks|
    ensures f in Universe(candidates) && f in FeatureSet(picks[j]) && f !in Covered(picks[..j])
  {
    var covered := Covered(picks[..j]);
    assert Best(picks[j], candidates - multiset(picks[..j]), covered);
    ContributionCounts(picks[j].features, covered);
    f :| f in FeatureSet(picks[j]) && f !in covered;
    assert picks[j] in candidates;
  }

  // ---- Determinism ----

  predicate IdsDistinguish(candidates: multiset<Candidate>) {
    forall c, d | c in candidates && d in candidates && c.id == d.id :: c == d
  }

  /** With ids that tell candidates apart, two greedy runs over the same candidates, in whatever order
      they were listed, that both cover everything are the same run. */
  lemma GreedyIsUnique(candidates: multiset<Candidate>, p: seq<Candidate>, q: seq<Candidate>)
    requires IdsDistinguish(candidates)
    requires Greedy(candidates, p) && Covered(p) == Universe(candidates)
    requires Greedy(candidates, q) && Covered(q) == Universe(candidates)
    ensures p == q
  {
    hide *;
    AgreeUpTo(candidates, p, q, if |p| < |q| then |p| else |q|);
    if |p| < |q| {
      assert q[..|p|] == p;
      var f := PickIsNew(candidates, q, |p|);
    } else if |q| < |p| {
      assert p[..|q|] == q;
      var f := PickIsNew(candidates, p, |q|);
    }
  }

  lemma AgreeUpTo(candidates: multiset<Candidate>, p: seq<Candidate>, q: seq<Candidate>, n: nat)
    requires IdsDistinguish(candidates)
    requires Greedy(candidates, p) && Greedy(candidates, q) && n <= |p| && n <= |q|
    ensures forall i | 0 <= i < n :: p[i] == q[i]
  {
    hide *;
    var j := 0;
    while j < n
      invariant j <= n && forall i | 0 <= i < j :: p[i] == q[i]
    {
      SamePick(candidates, p, q, j);
      j := j + 1;
    }
  }

  lemma SamePick(candidates: multiset<Candidate>, p: seq<Candidate>, q: seq<Candidate>, j: nat)
    requires IdsDistinguish(candidates)
    requires Greedy(candidates, p) && Greedy(candidates, q) && j < |p| && j < |q|
    requires forall i | 0 <= i < j :: p[i] == q[i]
    ensures p[j] == q[j]
  {
    assert p[..j] == q[..j];
    hide Covered;
    var remaining, covered := candidates - multiset(p[..j]), Covered(p[..j]);
    assert Best(p[j], remaining, covered) && Best(q[j], remaining, covered);
    assert Precedes(p[j], q[j], covered) && Precedes(q[j], p[j], covered);
    assert p[j] in candidates && q[j] in candidates;
  }
}
