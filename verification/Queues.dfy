/**
 The two bounded queues of the scheduler: drifting lineages to keep mutating, and probes that test a precedent.
 Both are keyed by corpus entries that must exist when an order is built from them.
 */
module Queues {
  import opened Wrappers
  import opened Words
  import opened Corpus
  import opened Sorting

  const MAX_AMPLIFY_ENTRIES: nat := 4096
  const AMPLIFY_HOT_BOOST: u64 := 0x1_0000_0000
  const MAX_PROBE_ENTRIES: nat := 256
  const MAX_MATCHES_PER_EDGE: nat := 2

  // ---- The amplify queue ----

  /** (frontier entry, mutator). */
  type Frontier = (Id, MutatorId)

  type Priorities = map<Frontier, u64>

  type Row = (Frontier, u64)

  predicate KeyLe(a: Frontier, b: Frontier) {
    a.0 < b.0 || (a.0 == b.0 && a.1 <= b.1)
  }

  /** Higher priority first, the lower key among equals. */
  predicate Outranks(a: Row, b: Row) {
    a.1 > b.1 || (a.1 == b.1 && KeyLe(a.0, b.0))
  }

  function ByUrgency(): (Row, Row) -> bool {
    (a: Row, b: Row) => Outranks(a, b)
  }

  lemma ByUrgencyIsTotal()
    ensures TotalOrder(ByUrgency())
  {
  }

  predicate Queued(row: Row, queue: Priorities) {
    row.0 in queue && queue[row.0] == row.1
  }

  /** `kept` is `queue` cut to the most urgent `cap` entries. */
  ghost predicate CutTo(kept: Priorities, queue: Priorities, cap: nat) {
    && kept.Keys <= queue.Keys && (forall k | k in kept :: kept[k] == queue[k])
    && |kept| == (if |queue| <= cap then |queue| else cap)
    && forall k, d | k in kept && d in queue && d !in kept :: Outranks((k, queue[k]), (d, queue[d]))
  }

  /** Being cut to the cap determines what is kept. */
  lemma CutIsUnique(a: Priorities, b: Priorities, queue: Priorities, cap: nat)
    requires CutTo(a, queue, cap) && CutTo(b, queue, cap)
    ensures a == b
  {
    assert |a.Keys| == |a| && |b.Keys| == |b|;
    if a.Keys != b.Keys {
      var k, d := DifferBothWays(a.Keys, b.Keys);
      RanksDiffer((k, queue[k]), (d, queue[d]));
    }
  }

  /** A lineage that a cut drops has a lower priority than every one it keeps, or the same and a higher key. */
  lemma CutKeepsUrgent(kept: Priorities, queue: Priorities, cap: nat, k: Frontier, d: Frontier)
    requires CutTo(kept, queue, cap) && k in kept && d in queue && d !in kept
    ensures queue[k] > queue[d] || (queue[k] == queue[d] && (k.0 < d.0 || (k.0 == d.0 && k.1 < d.1)))
  {
    assert Outranks((k, queue[k]), (d, queue[d]));
  }

  lemma RanksDiffer(a: Row, b: Row)
    requires a.0 != b.0
    ensures !(Outranks(a, b) && Outranks(b, a))
  {
  }

  lemma DifferBothWays<T>(a: set<T>, b: set<T>) returns (x: T, y: T)
    requires |a| == |b| && a != b
    ensures x in a && x !in b && y in b && y !in a
  {
    assert a <= b ==> b == a + (b - a) && |b| == |a| + |b - a|;
    assert b <= a ==> a == b + (a - b) && |a| == |b| + |a - b|;
    x :| x in a && x !in b;
    y :| y in b && y !in a;
  }

  lemma SubsetSize<T>(a: set<T>, b: set<T>)
    requires a <= b
    ensures |a| <= |b|
  {
    assert b == a + (b - a);
  }

  lemma OneMoreKey<K, V>(m: map<K, V>, k: K, v: V)
    ensures |m[k := v]| <= |m| + 1
  {
    assert m[k := v].Keys == m.Keys + {k};
    assert |m[k := v]| == |m[k := v].Keys| && |m| == |m.Keys|;
  }

  /** The rows of a queue, in some order. */
  method RowsOf(queue: Priorities) returns (rows: seq<Row>)
    ensures Distinct(rows) && |rows| == |queue| && forall r :: r in rows <==> Queued(r, queue)
  {
    var left := queue.Keys;
    rows := [];
    while left != {}
      invariant left <= queue.Keys && Distinct(rows) && |rows| + |left| == |queue.Keys|
      invariant forall r :: r in rows <==> Queued(r, queue) && r.0 !in left
      decreases left
    {
      var k :| k in left;
      left := left - {k};
      rows := rows + [(k, queue[k])];
    }
  }

  lemma KeysOfRows(rows: seq<Row>, queue: Priorities)
    requires Distinct(rows) && forall r | r in rows :: Queued(r, queue)
    ensures |set r | r in rows :: r.0| == |rows|
  {
    if rows != [] {
      var n := |rows| - 1;
      var before := rows[..n];
      KeysOfRows(before, queue);
      assert rows == before + [rows[n]];
      var keys := set r | r in before :: r.0;
      assert (set r | r in rows :: r.0) == keys + {rows[n].0};
      forall r | r in before ensures r.0 != rows[n].0 {
        assert r != rows[n] && Queued(r, queue) && Queued(rows[n], queue);
      }
    } else {
      assert (set r | r in rows :: r.0) == {};
    }
  }

  lemma FirstRowsSize(queue: Priorities, sorted: seq<Row>, cap: nat, kept: set<Frontier>)
    requires Distinct(sorted) && cap <= |sorted| && forall r :: r in sorted ==> Queued(r, queue)
    requires kept == set r | r in sorted[..cap] :: r.0
    ensures |kept| == cap && kept <= queue.Keys
  {
    KeysOfRows(sorted[..cap], queue);
  }

  /** What keeping the keys of the first `cap` sorted rows leaves. */
  lemma TakingFirstCuts(queue: Priorities, rows: seq<Row>, sorted: seq<Row>, cap: nat, kept: set<Frontier>)
    requires |queue| > cap && Distinct(rows) && |rows| == |queue| && forall r :: r in rows <==> Queued(r, queue)
    requires multiset(sorted) == multiset(rows) && |sorted| == |rows| && Ordered(sorted, ByUrgency())
    requires kept == set r | r in sorted[..cap] :: r.0
    ensures CutTo(map k | k in queue && k in kept :: queue[k], queue, cap)
  {
    var cut := map k | k in queue && k in kept :: queue[k];
    forall r ensures r in sorted <==> Queued(r, queue) {
      assert r in multiset(sorted) <==> r in multiset(rows);
    }
    DistinctPermutes(rows, sorted);
    FirstRowsSize(queue, sorted, cap, kept);
    assert cut.Keys == kept && |cut| == |cut.Keys|;
    forall j | 0 <= j < cap ensures sorted[j].0 in kept {
      assert sorted[j] == sorted[..cap][j];
    }
    forall k, d | k in cut && d in queue && d !in cut ensures Outranks((k, queue[k]), (d, queue[d])) {
      var r :| r in sorted[..cap] && r.0 == k;
      var i :| 0 <= i < cap && sorted[i] == r;
      assert Queued((d, queue[d]), queue);
      var j :| 0 <= j < |sorted| && sorted[j] == (d, queue[d]);
      assert ByUrgency()(sorted[i], sorted[j]);
      assert Queued(r, queue);
    }
  }

  class AmplifyQueue {
    var entries: Priorities

    /** Within the cap, and every frontier is a corpus entry. */
    ghost predicate Valid(known: set<Id>)
      reads this
    {
      |entries| <= MAX_AMPLIFY_ENTRIES && forall k | k in entries :: k.0 in known
    }

    constructor ()
      ensures entries == map[] && forall known :: Valid(known)
    {
      entries := map[];
    }

    /** A batch result for (parent, mutator): drifting with a priority, or not drifting any more. */
    method Observe(parent: Id, mutator: MutatorId, drift: Option<u64>, ghost known: set<Id>)
      requires Valid(known) && parent in known
      modifies this
      ensures Valid(known)
      ensures drift.None? ==> entries == old(entries) - {(parent, mutator)}
      ensures drift.Some? ==> CutTo(entries, old(entries)[(parent, mutator) := drift.value], MAX_AMPLIFY_ENTRIES)
    {
      hide Outranks, Ordered, ByUrgency;
      var key := (parent, mutator);
      if drift.None? {
        SubsetSize(entries.Keys - {key}, entries.Keys);
        assert |entries - {key}| == |(entries - {key}).Keys| && (entries - {key}).Keys == entries.Keys - {key};
        entries := entries - {key};
        return;
      }
      entries := entries[key := drift.value];
      assert entries.Keys == old(entries).Keys + {key};
      if |entries| > MAX_AMPLIFY_ENTRIES {
        var rows := RowsOf(entries);
        var sorted := SortBy(rows, ByUrgency());
        SortByPermutes(rows, ByUrgency());
        ByUrgencyIsTotal();
        SortByOrders(rows, ByUrgency());
        var kept := set r | r in sorted[..MAX_AMPLIFY_ENTRIES] :: r.0;
        TakingFirstCuts(entries, rows, sorted, MAX_AMPLIFY_ENTRIES, kept);
        entries := map k | k in entries && k in kept :: entries[k];
      }
    }

    /** An admitted child takes its parent's place in the queue, with a boost. */
    method Advance(parent: Id, mutator: MutatorId, child: Id, ghost known: set<Id>)
      requires Valid(known) && child in known
      modifies this
      ensures Valid(known)
      ensures (parent, mutator) !in old(entries) ==> entries == old(entries)
      ensures (parent, mutator) in old(entries) ==>
        entries == (old(entries) - {(parent, mutator)})[(child, mutator) := Boosted(old(entries)[(parent, mutator)])]
      ensures (parent, mutator) in old(entries) ==>
        var was: int, now: int := old(entries)[(parent, mutator)], entries[(child, mutator)];
        now == was + 0x1_0000_0000 || was + 0x1_0000_0000 > now == 0xFFFF_FFFF_FFFF_FFFF
    {
      var key := (parent, mutator);
      if key in entries {
        var priority := entries[key];
        var without := entries - {key};
        assert without.Keys == entries.Keys - {key} && |without.Keys| == |without| && |entries.Keys| == |entries|;
        entries := without;
        entries := entries[(child, mutator) := Boosted(priority)];
        assert entries.Keys == without.Keys + {(child, mutator)} && |entries.Keys| == |entries|;
      }
    }

    /** The most urgent frontier; it is always a corpus entry, and never one that a cut would drop before another. */
    method Pick(ghost known: set<Id>) returns (best: Option<Frontier>)
      requires Valid(known)
      ensures best.None? <==> entries == map[]
      ensures best.Some? ==> best.value in entries && best.value.0 in known
      ensures best.Some? ==> forall k | k in entries && k != best.value ::
        var b := best.value;
        entries[b] > entries[k] || (entries[b] == entries[k] && (b.0 < k.0 || (b.0 == k.0 && b.1 < k.1)))
    {
      best := None;
      var left := entries.Keys;
      while left != {}
        invariant left <= entries.Keys && (best.None? <==> left == entries.Keys)
        invariant best.Some? ==> best.value in entries
        invariant best.Some? ==>
          forall k | k in entries && k !in left :: Outranks((best.value, entries[best.value]), (k, entries[k]))
        decreases left
      {
        var k :| k in left;
        left := left - {k};
        if best.None? || !Outranks((best.value, entries[best.value]), (k, entries[k])) {
          best := Some(k);
        }
      }
    }
  }

  function Boosted(priority: u64): u64 {
    if priority + AMPLIFY_HOT_BOOST > 0xFFFF_FFFF_FFFF_FFFF then 0xFFFF_FFFF_FFFF_FFFF else priority + AMPLIFY_HOT_BOOST
  }

  // ---- The probe queue ----

  datatype ProbeClass = Discriminate | Falsify

  /** The parts of a precedent that scheduling reads. */
  datatype Precedent = Precedent(mutator: MutatorId, identity: u64, discriminates: bool)

  datatype Probe = Probe(seqNo: u64, class_: ProbeClass, precedent: Precedent, root: Id, mutator: MutatorId, frontier: Id,
                         priority: u64)

  type ProbeKey = (Id, MutatorId, u64)

  class ProbeQueue {
    var probes: map<u64, Probe>
    var nextSeq: u64
    var inflight: set<ProbeKey>

    /** Within the cap; frontiers are corpus entries; probes are filed under their numbers, higher ones at lower
        priority; and no two are for one (root, mutator) lineage. */
    ghost predicate Valid(known: set<Id>)
      reads this
    {
      && |probes| <= MAX_PROBE_ENTRIES
      && (forall s | s in probes ::
           && probes[s].frontier in known && probes[s].seqNo == s
           && probes[s].priority == 0xFFFF_FFFF_FFFF_FFFF - s
           && probes[s].mutator == probes[s].precedent.mutator)
      && (forall s, t | s in probes && t in probes && s != t ::
           (probes[s].root, probes[s].mutator) != (probes[t].root, probes[t].mutator))
    }

    /** No queued number is ahead of the next one: nothing is overwritten, and newer probes have lower priority. */
    ghost predicate NumbersAscend()
      reads this
    {
      forall s | s in probes :: s < nextSeq
    }

    constructor ()
      ensures probes == map[] && nextSeq == 0 && inflight == {} && NumbersAscend() && forall known :: Valid(known)
    {
      probes, nextSeq, inflight := map[], 0, {};
    }

    /** Some queued probe is already for this lineage. */
    predicate HasLineage(root: Id, mutator: MutatorId)
      reads this
    {
      exists s | s in probes :: probes[s].root == root && probes[s].mutator == mutator
    }

    /** The end of the loop body of `enqueue_precedent_probes`. */
    method InsertProbe(p: Precedent, root: Id, frontier: Id, ghost known: set<Id>)
      requires Valid(known) && frontier in known
      requires !HasLineage(root, p.mutator) && |probes| < MAX_PROBE_ENTRIES
      modifies this`probes, this`nextSeq
      ensures Valid(known) && nextSeq == NextNumber(old(nextSeq)) && HasLineage(root, p.mutator)
      ensures old(NumbersAscend()) && nextSeq != 0 ==> NumbersAscend()
      ensures probes == old(probes)[old(nextSeq) := ProbeFor(old(nextSeq), p, root, p.mutator, frontier)]
      ensures var probe := probes[old(nextSeq)];
        && (probe.class_ == Discriminate <==> p.discriminates)
        && probe.precedent == p && probe.root == root && probe.frontier == frontier
    {
      probes := probes[nextSeq := ProbeFor(nextSeq, p, root, p.mutator, frontier)];
      OneMoreKey(old(probes), nextSeq, probes[nextSeq]);
      assert probes[nextSeq].root == root && probes[nextSeq].mutator == p.mutator;
      nextSeq := NextNumber(nextSeq);
    }

    /** Matched precedents become probes of one edge. Although two are tried, at most one is ever queued: both are for
        the same lineage. It is the first whose family is not in flight, if the lineage has none and there is room. */
    method Enqueue(matched: seq<Precedent>, root: Id, mutator: MutatorId, frontier: Id, ghost known: set<Id>)
      requires Valid(known) && frontier in known
      requires forall p | p in matched :: p.mutator == mutator
      modifies this
      ensures Valid(known) && inflight == old(inflight)
      ensures old(NumbersAscend()) && (nextSeq != 0 || old(nextSeq) == 0) ==> NumbersAscend()
      ensures var room := !old(HasLineage(root, mutator)) && |old(probes)| < MAX_PROBE_ENTRIES;
        var free := FirstFree(matched, root, old(inflight), MAX_MATCHES_PER_EDGE);
        if room && free.Some? then
          && nextSeq == NextNumber(old(nextSeq))
          && probes == old(probes)[old(nextSeq) := ProbeFor(old(nextSeq), free.value, root, mutator, frontier)]
        else probes == old(probes) && nextSeq == old(nextSeq)
    {
      var tried := 0;
      ghost var queued := false;
      ghost var free := FirstFree(matched, root, inflight, MAX_MATCHES_PER_EDGE);
      assert matched[0..] == matched;
      hide Valid, HasLineage, ProbeFor, NumbersAscend;
      while tried < |matched| && tried < MAX_MATCHES_PER_EDGE
        invariant tried <= |matched| && tried <= MAX_MATCHES_PER_EDGE && inflight == old(inflight)
        invariant !queued ==> probes == old(probes) && nextSeq == old(nextSeq)
        invariant !queued && !HasLineage(root, mutator) ==>
          free == FirstFree(matched[tried..], root, inflight, MAX_MATCHES_PER_EDGE - tried)
        invariant queued ==> free.Some? && !old(HasLineage(root, mutator)) && |old(probes)| < MAX_PROBE_ENTRIES
        invariant queued ==> HasLineage(root, mutator) && nextSeq == NextNumber(old(nextSeq))
        invariant queued && old(NumbersAscend()) && nextSeq != 0 ==> NumbersAscend()
        invariant queued ==>
          probes == old(probes)[old(nextSeq) := ProbeFor(old(nextSeq), free.value, root, mutator, frontier)]
        invariant Valid(known)
        decreases |matched| - tried
      {
        var p := matched[tried];
        assert p in matched && matched[tried..][0] == p && matched[tried..][1..] == matched[tried + 1..];
        tried := tried + 1;
        if (root, p.mutator, p.identity) in inflight {
          continue;
        }
        if HasLineage(root, p.mutator) {
          continue;
        }
        if |probes| >= MAX_PROBE_ENTRIES {
          break;
        }
        InsertProbe(p, root, frontier, known);
        queued := true;
      }
    }

    /** Dispatching: the earliest queued probe of a class leaves the queue and is in flight. */
    method Dispatch(class_: ProbeClass, ghost known: set<Id>) returns (r: Option<Probe>)
      requires Valid(known)
      modifies this
      ensures Valid(known) && nextSeq == old(nextSeq) && (old(NumbersAscend()) ==> NumbersAscend())
      ensures r.None? <==> forall s | s in old(probes) :: old(probes)[s].class_ != class_
      ensures r.None? ==> probes == old(probes) && inflight == old(inflight)
      ensures r.Some? ==>
        && r.value.seqNo in old(probes) && old(probes)[r.value.seqNo] == r.value && r.value.class_ == class_
        && (forall s | s in old(probes) && old(probes)[s].class_ == class_ :: r.value.seqNo <= s)
        && probes == old(probes) - {r.value.seqNo} && r.value.frontier in known
        && inflight == old(inflight) + {(r.value.root, r.value.precedent.mutator, r.value.precedent.identity)}
    {
      var left := probes.Keys;
      r := None;
      while left != {}
        invariant left <= probes.Keys && probes == old(probes)
        invariant r.None? ==> forall s | s in probes && s !in left :: probes[s].class_ != class_
        invariant r.Some? ==> r.value.seqNo in probes && probes[r.value.seqNo] == r.value && r.value.class_ == class_
        invariant r.Some? ==> forall s | s in probes && s !in left && probes[s].class_ == class_ :: r.value.seqNo <= s
        decreases left
      {
        var s :| s in left;
        left := left - {s};
        if probes[s].class_ == class_ && (r.None? || s < r.value.seqNo) {
          r := Some(probes[s]);
        }
      }
      if r.Some? {
        var p := r.value;
        var without := probes - {p.seqNo};
        assert without.Keys == probes.Keys - {p.seqNo} && |without.Keys| == |without| && |probes.Keys| == |probes|;
        probes := without;
        inflight := inflight + {(p.root, p.precedent.mutator, p.precedent.identity)};
      }
    }

    /** A result for a probe: it is no longer in flight. */
    method Settle(p: Probe, ghost known: set<Id>)
      requires Valid(known)
      modifies this`inflight
      ensures Valid(known)
      ensures inflight == old(inflight) - {(p.root, p.precedent.mutator, p.precedent.identity)}
    {
      inflight := inflight - {(p.root, p.precedent.mutator, p.precedent.identity)};
    }
  }

  /** Corpus entries are never removed, so queued frontiers stay corpus entries. */
  lemma QueuesSurviveGrowth(amplify: AmplifyQueue, probes: ProbeQueue, known: set<Id>, more: set<Id>)
    requires amplify.Valid(known) && probes.Valid(known) && known <= more
    ensures amplify.Valid(more) && probes.Valid(more)
  {
  }

  /** `wrapping_add(1)`. */
  function NextNumber(n: u64): u64 {
    if n == 0xFFFF_FFFF_FFFF_FFFF then 0 else n + 1
  }

  function ProbeFor(seqNo: u64, p: Precedent, root: Id, mutator: MutatorId, frontier: Id): Probe {
    Probe(seqNo, if p.discriminates then Discriminate else Falsify, p, root, mutator, frontier,
          0xFFFF_FFFF_FFFF_FFFF - seqNo)
  }

  /** The first of the first `n` matches whose family is not in flight for the root. */
  function FirstFree(matched: seq<Precedent>, root: Id, inflight: set<ProbeKey>, n: nat): Option<Precedent>
    decreases n
  {
    if matched == [] || n == 0 then None
    else if (root, matched[0].mutator, matched[0].identity) !in inflight then Some(matched[0])
    else FirstFree(matched[1..], root, inflight, n - 1)
  }

  /** Nothing is free exactly when the families of all matches tried are in flight; otherwise it is the first that is
      not. */
  lemma {:induction false} FirstFreeMeans(matched: seq<Precedent>, root: Id, inflight: set<ProbeKey>, n: nat) returns (i: nat)
    ensures i <= |matched| && i <= n
    ensures forall j | 0 <= j < i :: (root, matched[j].mutator, matched[j].identity) in inflight
    ensures match FirstFree(matched, root, inflight, n)
      case None => i == |matched| || i == n
      case Some(p) =>
        i < |matched| && i < n && matched[i] == p && (root, p.mutator, p.identity) !in inflight
    decreases n
  {
    i := 0;
    if matched != [] && n > 0 && (root, matched[0].mutator, matched[0].identity) in inflight {
      var k := FirstFreeMeans(matched[1..], root, inflight, n - 1);
      forall j | 0 <= j < k + 1 ensures (root, matched[j].mutator, matched[j].identity) in inflight {
        assert j > 0 ==> matched[j] == matched[1..][j - 1];
      }
      i := k + 1;
    }
  }
}
