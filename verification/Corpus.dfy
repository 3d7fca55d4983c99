/**
 The in-memory corpus index: a map from entry ids to metadata, derived from the durable metadata
 objects, with the walk to an entry's seed ancestor and the order of admission.
 Content ids are numbers; only their equality and order matter.
 */
module Corpus {
  import opened Wrappers
  import opened Words
  import opened Signals
  import opened Sorting

  type Id = nat
  type MutatorId = nat

  datatype AdmissionReason =
    | Seed | NewCoverage | SmallerRepresentative | Crash
    | NewStateFeature | NewMorphology | StructuredUnknown | BoundaryWitness

  /** Durable metadata of one entry; seeds have neither parent nor mutator. */
  datatype Meta = Meta(
    entryId: Id,
    parentId: Option<Id>,
    generation: u32,
    features: seq<u64>,
    reason: AdmissionReason,
    signals: SignalVector,
    mutatorId: Option<MutatorId>,
    morphologyId: Option<Id>,
    admissionSeq: u64)

  datatype IndexError = IdCollision

  type Entries = map<Id, Meta>

  // ---- Ancestors ----

  /** Every entry is filed under its own id, and parents are there and were admitted earlier. */
  ghost predicate Grounded(entries: Entries) {
    forall id | id in entries ::
      && entries[id].entryId == id
      && (entries[id].parentId.Some? ==>
        entries[id].parentId.value in entries
        && entries[entries[id].parentId.value].admissionSeq < entries[id].admissionSeq)
  }

  /** The seed at the end of the parent chain. */
  ghost function SeedAncestor(entries: Entries, id: Id): (seed: Id)
    requires Grounded(entries) && id in entries
    ensures seed in entries && entries[seed].parentId.None?
    decreases entries[id].admissionSeq
  {
    match entries[id].parentId
    case None => id
    case Some(p) => SeedAncestor(entries, p)
  }

  /** The walk of `root_of`: at most `steps` lookups. */
  function Walk(entries: Entries, id: Id, steps: nat): Option<Id>
    decreases steps
  {
    if steps == 0 || id !in entries then None
    else
      match entries[id].parentId
      case None => Some(id)
      case Some(p) => Walk(entries, p, steps - 1)
  }

  function RootOf(entries: Entries, id: Id): Option<Id> {
    Walk(entries, id, |entries| + 1)
  }

  /** The walk finds the seed once it may visit all the entries that were admitted no later. */
  lemma {:induction false} WalkReaches(entries: Entries, id: Id, ancestors: set<Id>, steps: nat)
    requires Grounded(entries) && id in entries && steps >= |ancestors|
    requires forall a | a in entries && entries[a].admissionSeq <= entries[id].admissionSeq :: a in ancestors
    ensures Walk(entries, id, steps) == Some(SeedAncestor(entries, id))
    decreases entries[id].admissionSeq
  {
    assert id in ancestors && |ancestors - {id}| == |ancestors| - 1;
    match entries[id].parentId
    case None =>
    case Some(p) => WalkReaches(entries, p, ancestors - {id}, steps - 1);
  }

  /** The bound of `root_of` is never what ends it: every entry's seed ancestor is found. */
  lemma RootOfFindsSeed(entries: Entries, id: Id)
    requires Grounded(entries) && id in entries
    ensures RootOf(entries, id) == Some(SeedAncestor(entries, id))
  {
    assert |entries.Keys| == |entries|;
    WalkReaches(entries, id, entries.Keys, |entries| + 1);
  }

  /** Later entries do not change an entry's ancestor. */
  lemma {:induction false} SeedAncestorIsStable(entries: Entries, more: Entries, id: Id)
    requires Grounded(entries) && Grounded(more) && id in entries
    requires forall a | a in entries :: a in more && more[a] == entries[a]
    ensures SeedAncestor(more, id) == SeedAncestor(entries, id)
    decreases entries[id].admissionSeq
  {
    if entries[id].parentId.Some? {
      SeedAncestorIsStable(entries, more, entries[id].parentId.value);
    }
  }

  /** Whatever parents are there were admitted earlier. */
  ghost predicate Acyclic(entries: Entries) {
    forall id | id in entries && entries[id].parentId.Some? && entries[id].parentId.value in entries ::
      entries[entries[id].parentId.value].admissionSeq < entries[id].admissionSeq
  }

  /** An entry's ancestors and the entry itself, seed first; a missing ancestor ends the chain. */
  ghost function Ancestry(entries: Entries, id: Id): (chain: seq<Meta>)
    requires Acyclic(entries)
    ensures id in entries ==> chain != [] && chain[|chain| - 1] == entries[id]
    decreases if id in entries then 1 + entries[id].admissionSeq else 0
  {
    if id !in entries then []
    else
      match entries[id].parentId
      case None => [entries[id]]
      case Some(p) => Ancestry(entries, p) + [entries[id]]
  }

  /** In a well-founded corpus the chain starts at the seed, every other member is a child of the one before, and
      admission numbers ascend. */
  lemma {:induction false} AncestryIsChain(entries: Entries, id: Id)
    requires Grounded(entries) && id in entries
    ensures var chain := Ancestry(entries, id);
      && chain[0] == entries[SeedAncestor(entries, id)]
      && (forall i | 0 < i < |chain| :: chain[i].parentId == Some(chain[i - 1].entryId))
      && (forall i | 0 < i < |chain| :: chain[i - 1].admissionSeq < chain[i].admissionSeq)
    decreases entries[id].admissionSeq
  {
    if entries[id].parentId.Some? {
      AncestryIsChain(entries, entries[id].parentId.value);
    }
  }

  function IfBy(meta: Meta, mutator: MutatorId): seq<Meta> {
    if meta.mutatorId == Some(mutator) then [meta] else []
  }

  function WithMutator(chain: seq<Meta>, mutator: MutatorId): seq<Meta> {
    if chain == [] then []
    else
      var before, last := chain[..|chain| - 1], chain[|chain| - 1];
      WithMutator(before, mutator) + IfBy(last, mutator)
  }

  /** Admission numbers ascend. */
  ghost predicate Ascending(s: seq<Meta>) {
    forall i, j | 0 <= i < j < |s| :: s[i].admissionSeq < s[j].admissionSeq
  }

  lemma AscendingAppends(s: seq<Meta>, m: Meta)
    requires Ascending(s) && forall x | x in s :: x.admissionSeq < m.admissionSeq
    ensures Ascending(s + [m])
  {
    assert forall i | 0 <= i < |s| :: s[i] in s;
  }

  lemma {:induction false} AncestryAscends(entries: Entries, id: Id)
    requires Grounded(entries) && id in entries
    ensures Ascending(Ancestry(entries, id))
    ensures forall m | m in Ancestry(entries, id) :: m.admissionSeq <= entries[id].admissionSeq
    decreases entries[id].admissionSeq
  {
    if entries[id].parentId.Some? {
      hide Ascending;
      var p := entries[id].parentId.value;
      AncestryAscends(entries, p);
      AscendingAppends(Ancestry(entries, p), entries[id]);
      assert forall m | m in Ancestry(entries, id) :: m in Ancestry(entries, p) || m == entries[id];
    }
  }

  lemma {:induction false} WithMutatorPicks(chain: seq<Meta>, mutator: MutatorId)
    ensures forall m :: m in WithMutator(chain, mutator) <==> m in chain && m.mutatorId == Some(mutator)
  {
    if chain != [] {
      WithMutatorPicks(chain[..|chain| - 1], mutator);
      assert chain == chain[..|chain| - 1] + [chain[|chain| - 1]];
    }
  }

  lemma LastIsLatest(before: seq<Meta>, last: Meta)
    requires Ascending(before + [last])
    ensures Ascending(before) && forall x | x in before :: x.admissionSeq < last.admissionSeq
  {
    var chain := before + [last];
    assert forall i | 0 <= i < |before| :: chain[i] == before[i] && chain[i].admissionSeq < chain[|before|].admissionSeq;
  }

  lemma {:induction false} WithMutatorAscends(chain: seq<Meta>, mutator: MutatorId)
    requires Ascending(chain)
    ensures Ascending(WithMutator(chain, mutator))
  {
    if chain != [] {
      hide Ascending;
      var before, last := chain[..|chain| - 1], chain[|chain| - 1];
      assert chain == before + [last];
      LastIsLatest(before, last);
      WithMutatorAscends(before, mutator);
      WithMutatorPicks(before, mutator);
      assert WithMutator(before, mutator) + [] == WithMutator(before, mutator);
      if last.mutatorId == Some(mutator) {
        AscendingAppends(WithMutator(before, mutator), last);
      }
    } else {
      NoneAscends();
    }
  }

  lemma NoneAscends()
    ensures Ascending([])
  {
  }

  /** The edges of one mutator above an entry are exactly those of its ancestors that the mutator made, oldest first. */
  lemma LineageIsOldestFirst(entries: Entries, id: Id, mutator: MutatorId)
    requires Grounded(entries) && id in entries
    ensures var chain := WithMutator(Ancestry(entries, id), mutator);
      && (forall m :: m in chain <==> m in Ancestry(entries, id) && m.mutatorId == Some(mutator))
      && Ascending(chain)
  {
    hide WithMutator, Ancestry, Ascending;
    AncestryAscends(entries, id);
    WithMutatorPicks(Ancestry(entries, id), mutator);
    WithMutatorAscends(Ancestry(entries, id), mutator);
  }

  function Reversed(s: seq<Meta>): seq<Meta> {
    if s == [] then [] else Reversed(s[1..]) + [s[0]]
  }

  lemma {:induction false} ReversedAppends(s: seq<Meta>, m: Meta)
    ensures Reversed(s + [m]) == [m] + Reversed(s)
  {
    if s == [] {
      assert [m][1..] == [];
    } else {
      ReversedAppends(s[1..], m);
      assert (s + [m])[1..] == s[1..] + [m];
    }
  }

  // ---- Logs of admissions ----

  /** The entries of a list of metadata. */
  function EntriesOf(log: seq<Meta>): Entries {
    if log == [] then map[] else EntriesOf(log[..|log| - 1])[log[|log| - 1].entryId := log[|log| - 1]]
  }

  predicate DistinctIds(log: seq<Meta>) {
    forall i, j | 0 <= i < j < |log| :: log[i].entryId != log[j].entryId
  }

  predicate Filed(m: Meta, entries: Entries) {
    m.entryId in entries && entries[m.entryId] == m
  }

  /** `log` lists exactly the entries, each once. */
  ghost predicate Lists(log: seq<Meta>, entries: Entries) {
    && DistinctIds(log)
    && (forall m | m in log :: Filed(m, entries))
    && (forall id | id in entries :: entries[id] in log && entries[id].entryId == id)
  }

  lemma ListsExtend(log: seq<Meta>, entries: Entries, m: Meta)
    requires Lists(log, entries) && m.entryId !in entries
    ensures Lists(log + [m], entries[m.entryId := m])
  {
    var more, after := log + [m], entries[m.entryId := m];
    forall x | x in more ensures Filed(x, after) {
      assert x in log ==> Filed(x, entries);
    }
    forall i, j | 0 <= i < j < |more| ensures more[i].entryId != more[j].entryId {
      assert more[i] in log && Filed(more[i], entries);
    }
    forall id | id in after ensures after[id] in more {
      assert id in entries ==> entries[id] in log;
      assert m in more;
    }
  }

  lemma NewId(log: seq<Meta>, entries: Entries, m: Meta)
    requires Lists(log, entries)
    ensures m.entryId !in entries <==> forall x | x in log :: x.entryId != m.entryId
  {
    if m.entryId in entries {
      assert entries[m.entryId] in log;
    } else {
      forall x | x in log ensures x.entryId != m.entryId {
        assert Filed(x, entries);
      }
    }
  }

  lemma DistinctIdsSplit(log: seq<Meta>, m: Meta)
    ensures DistinctIds(log + [m]) <==> DistinctIds(log) && forall x | x in log :: x.entryId != m.entryId
  {
    var more := log + [m];
    if DistinctIds(more) {
      forall i, j | 0 <= i < j < |log| ensures log[i].entryId != log[j].entryId {
        assert more[i].entryId != more[j].entryId;
      }
      forall x | x in log ensures x.entryId != m.entryId {
        var i :| 0 <= i < |log| && log[i] == x;
        assert more[i].entryId != more[|log|].entryId;
      }
    }
  }

  /** A list with distinct ids files every one of its members. */
  lemma {:induction false} LogIsListed(log: seq<Meta>)
    requires DistinctIds(log)
    ensures Lists(log, EntriesOf(log))
  {
    if log != [] {
      hide DistinctIds, Lists;
      var before, last := log[..|log| - 1], log[|log| - 1];
      assert log == before + [last];
      DistinctIdsSplit(before, last);
      LogIsListed(before);
      NewId(before, EntriesOf(before), last);
      ListsExtend(before, EntriesOf(before), last);
    } else {
      assert EntriesOf(log) == map[];
    }
  }

  lemma ListingsAgree(a: seq<Meta>, b: seq<Meta>, entries: Entries)
    requires Lists(a, entries) && Lists(b, entries)
    ensures multiset(a) == multiset(b)
  {
    forall m ensures m in a <==> m in b {
      if m in a { assert Filed(m, entries); }
      if m in b { assert Filed(m, entries); }
    }
    SameMembers(a, b);
  }

  lemma PermutationLists(a: seq<Meta>, b: seq<Meta>, entries: Entries)
    requires Lists(a, entries) && multiset(a) == multiset(b)
    ensures Lists(b, entries)
  {
    DistinctPermutes(a, b);
    forall m ensures m in a <==> m in b {
      assert m in multiset(a) <==> m in multiset(b);
    }
    forall i, j | 0 <= i < j < |b| ensures b[i].entryId != b[j].entryId {
      assert b[i] in b && b[j] in b && Filed(b[i], entries) && Filed(b[j], entries);
    }
  }

  // ---- The order of admission ----

  function InAdmissionOrder(): (Meta, Meta) -> bool {
    (a: Meta, b: Meta) => a.admissionSeq < b.admissionSeq || (a.admissionSeq == b.admissionSeq && a.entryId <= b.entryId)
  }

  lemma AdmissionOrderIsTotal()
    ensures TotalOrder(InAdmissionOrder())
  {
  }

  lemma AdmissionOrderMeans(order: seq<Meta>, entries: Entries, i: nat, j: nat)
    requires Lists(order, entries) && Ordered(order, InAdmissionOrder()) && i < j < |order|
    ensures order[i].admissionSeq < order[j].admissionSeq
         || (order[i].admissionSeq == order[j].admissionSeq && order[i].entryId < order[j].entryId)
  {
    assert InAdmissionOrder()(order[i], order[j]);
  }

  /** However the entries are listed first, sorting them by sequence number gives one list. */
  lemma AdmissionOrderIsUnique(a: seq<Meta>, b: seq<Meta>, entries: Entries)
    requires Lists(a, entries) && Lists(b, entries)
    requires Ordered(a, InAdmissionOrder()) && Ordered(b, InAdmissionOrder())
    ensures a == b
  {
    ListingsAgree(a, b, entries);
    forall x, y | x in a && y in a && InAdmissionOrder()(x, y) && InAdmissionOrder()(y, x) ensures x == y {
      assert x.entryId == y.entryId;
    }
    OrderedIsUnique(a, b, InAdmissionOrder());
  }

  // ---- Feature lists ----

  type FeatureLists = map<u64, seq<Id>>

  function AddFeature(lists: FeatureLists, f: u64, id: Id): FeatureLists {
    lists[f := (if f in lists then lists[f] else []) + [id]]
  }

  function AddFeatures(lists: FeatureLists, features: seq<u64>, id: Id): FeatureLists {
    if features == [] then lists
    else AddFeature(AddFeatures(lists, features[..|features| - 1], id), features[|features| - 1], id)
  }

  predicate Covers(entries: Entries, id: Id, f: u64) {
    id in entries && f in entries[id].features
  }

  predicate Listed(lists: FeatureLists, f: u64, id: Id) {
    f in lists && id in lists[f]
  }

  /** Every feature is listed with exactly the entries that have it, and no list is empty. */
  ghost predicate FeaturesMatch(entries: Entries, lists: FeatureLists) {
    && (forall f | f in lists :: lists[f] != [])
    && (forall id, f :: Covers(entries, id, f) <==> Listed(lists, f, id))
  }

  lemma ListedMeansCovered(entries: Entries, lists: FeatureLists, f: u64)
    requires FeaturesMatch(entries, lists)
    ensures f in lists <==> exists id :: Covers(entries, id, f)
  {
    if f in lists {
      assert Listed(lists, f, lists[f][0]);
    }
    if exists id :: Covers(entries, id, f) {
      var id :| Covers(entries, id, f);
      assert Listed(lists, f, id);
    }
  }

  lemma {:induction false} AddFeaturesLists(lists: FeatureLists, features: seq<u64>, id: Id)
    ensures var r := AddFeatures(lists, features, id);
      && (forall f :: f in r <==> f in lists || f in features)
      && (forall f | f in r && f !in features :: r[f] == lists[f])
      && (forall f | f in features :: r[f] != [] &&
           forall x :: x in r[f] <==> x == id || (f in lists && x in lists[f]))
  {
    if features != [] {
      var n := |features| - 1;
      AddFeaturesLists(lists, features[..n], id);
      assert features == features[..n] + [features[n]];
    }
  }

  lemma InsertKeepsMatch(entries: Entries, lists: FeatureLists, meta: Meta)
    requires FeaturesMatch(entries, lists) && meta.entryId !in entries
    ensures FeaturesMatch(entries[meta.entryId := meta], AddFeatures(lists, meta.features, meta.entryId))
  {
    AddFeaturesLists(lists, meta.features, meta.entryId);
    var more, added := entries[meta.entryId := meta], AddFeatures(lists, meta.features, meta.entryId);
    forall id, f ensures Covers(more, id, f) <==> Listed(added, f, id) {
      assert Covers(entries, id, f) <==> Listed(lists, f, id);
    }
  }

  /** Two indexes with the same entries list the same features, each with the same entries up to order. */
  lemma FeatureListsAgree(entries: Entries, a: FeatureLists, b: FeatureLists, f: u64)
    requires FeaturesMatch(entries, a) && FeaturesMatch(entries, b)
    ensures f in a <==> f in b
    ensures f in a && f in b ==> forall id :: id in a[f] <==> id in b[f]
  {
    ListedMeansCovered(entries, a, f);
    ListedMeansCovered(entries, b, f);
    forall id ensures Listed(a, f, id) <==> Listed(b, f, id) {
      assert Covers(entries, id, f) <==> Listed(a, f, id);
    }
    if f in a && f in b {
      forall id ensures id in a[f] <==> id in b[f] {
        assert Listed(a, f, id) <==> Listed(b, f, id);
      }
    }
  }

  // ---- The index ----

  class CorpusIndex {
    var entries: Entries
    var featureToEntries: FeatureLists

    ghost predicate Valid()
      reads this
    {
      && FeaturesMatch(entries, featureToEntries)
      && forall id | id in entries :: entries[id].entryId == id
    }

    constructor ()
      ensures Valid() && entries == map[]
    {
      entries, featureToEntries := map[], map[];
    }

    /** Refuses a second metadata object for an entry and then changes nothing. */
    method InsertMeta(meta: Meta) returns (r: Result<(), IndexError>)
      requires Valid()
      modifies this
      ensures Valid()
      ensures r.Ok? <==> meta.entryId !in old(entries)
      ensures entries == if r.Ok? then old(entries)[meta.entryId := meta] else old(entries)
    {
      hide FeaturesMatch;
      if meta.entryId in entries {
        return Err(IdCollision);
      }
      InsertKeepsMatch(entries, featureToEntries, meta);
      for i := 0 to |meta.features|
        invariant featureToEntries == AddFeatures(old(featureToEntries), meta.features[..i], meta.entryId)
        invariant entries == old(entries)
      {
        assert meta.features[..i + 1][..i] == meta.features[..i];
        featureToEntries := AddFeature(featureToEntries, meta.features[i], meta.entryId);
      }
      assert meta.features[..|meta.features|] == meta.features;
      entries := entries[meta.entryId := meta];
      return Ok(());
    }

    /** The walk to the seed ancestor, with the bound that guards against corrupt cycles. */
    method FindRoot(id: Id) returns (root: Option<Id>)
      ensures root == RootOf(entries, id)
    {
      var cur := id;
      for i := 0 to |entries| + 1
        invariant RootOf(entries, id) == Walk(entries, cur, |entries| + 1 - i)
      {
        if cur !in entries {
          return None;
        }
        match entries[cur].parentId {
          case Some(p) => cur := p;
          case None => return Some(cur);
        }
      }
      return None;
    }

    /** `lineage_chain`: the edges of one mutator on the path to an entry, parent first, from its seed or its last
        ancestor that is there. The walk has no bound of its own; it ends because parents were admitted earlier. */
    method LineageChain(id: Id, mutator: MutatorId) returns (chain: seq<Meta>)
      requires Acyclic(entries)
      ensures chain == WithMutator(Ancestry(entries, id), mutator)
    {
      hide Ancestry, WithMutator, Reversed, Acyclic;
      var collected: seq<Meta> := [];
      var cur := Some(id);
      NothingReversed(PathAbove(entries, cur, mutator));
      while cur.Some?
        invariant PathAbove(entries, Some(id), mutator) == PathAbove(entries, cur, mutator) + Reversed(collected)
        decreases if cur.Some? then if cur.value in entries then 2 + entries[cur.value].admissionSeq else 1 else 0
      {
        if cur.value !in entries {
          NothingAbove(entries, cur.value, mutator);
          break;
        }
        var meta := entries[cur.value];
        OneStepUp(entries, cur.value, mutator, collected);
        assert collected + [] == collected;
        if meta.mutatorId == Some(mutator) {
          collected := collected + [meta];
        }
        cur := meta.parentId;
      }
      return Reversed(collected);
    }

    /** All entries, sorted by sequence number and then by id. */
    method ByAdmissionOrder() returns (order: seq<Meta>)
      requires Valid()
      ensures Lists(order, entries) && Ordered(order, InAdmissionOrder())
      ensures forall i, j | 0 <= i < j < |order| ::
        order[i].admissionSeq < order[j].admissionSeq
        || (order[i].admissionSeq == order[j].admissionSeq && order[i].entryId < order[j].entryId)
    {
      var left := entries.Keys;
      var values: seq<Meta> := [];
      while left != {}
        invariant left <= entries.Keys && DistinctIds(values)
        invariant forall m | m in values :: m.entryId in entries && entries[m.entryId] == m && m.entryId !in left
        invariant forall id | id in entries && id !in left :: entries[id] in values
        decreases left
      {
        var id :| id in left;
        left := left - {id};
        values := values + [entries[id]];
      }
      assert Lists(values, entries);
      order := SortBy(values, InAdmissionOrder());
      SortByPermutes(values, InAdmissionOrder());
      AdmissionOrderIsTotal();
      SortByOrders(values, InAdmissionOrder());
      PermutationLists(values, order, entries);
      forall i, j | 0 <= i < j < |order| {
        AdmissionOrderMeans(order, entries, i, j);
      }
    }

    /** The features not yet covered by any entry, sorted and without repetition. */
    method NovelFeatures(features: seq<u64>) returns (novel: seq<u64>)
      requires Valid()
      ensures Increasing(novel)
      ensures forall f :: f in novel <==> f in features && forall id :: !Covers(entries, id, f)
    {
      novel := [];
      for i := 0 to |features|
        invariant Increasing(novel)
        invariant forall f :: f in novel <==> f in features[..i] && f !in featureToEntries
      {
        assert features[..i + 1] == features[..i] + [features[i]];
        if features[i] !in featureToEntries {
          novel := InsertDistinct(novel, features[i]);
        }
      }
      assert features[..|features|] == features;
      forall f: u64 ensures f in featureToEntries <==> exists id :: Covers(entries, id, f) {
        ListedMeansCovered(entries, featureToEntries, f);
      }
    }

    /** `CorpusIndex::rebuild`: inserts the stored metadata objects in whatever order they are listed. */
    static method Rebuild(objects: seq<Meta>) returns (r: Result<CorpusIndex, IndexError>)
      ensures r.Ok? <==> DistinctIds(objects)
      ensures r.Ok? ==> fresh(r.value) && r.value.Valid() && r.value.entries == EntriesOf(objects)
    {
      hide Lists, FeaturesMatch, DistinctIds;
      var index := new CorpusIndex();
      NoneListed();
      for i := 0 to |objects|
        invariant fresh(index) && index.Valid() && index.entries == EntriesOf(objects[..i])
        invariant DistinctIds(objects[..i])
      {
        ghost var before := objects[..i];
        LogIsListed(before);
        NewId(before, EntriesOf(before), objects[i]);
        DistinctIdsSplit(before, objects[i]);
        assert objects[..i + 1] == before + [objects[i]];
        var inserted := index.InsertMeta(objects[i]);
        if inserted.Err? {
          if DistinctIds(objects) { DistinctPrefix(objects, i + 1); }
          return Err(IdCollision);
        }
      }
      assert objects[..|objects|] == objects;
      return Ok(index);
    }
  }

  lemma NoneListed()
    ensures DistinctIds([]) && EntriesOf([]) == map[]
  {
  }

  lemma DistinctPrefix(log: seq<Meta>, n: nat)
    requires DistinctIds(log) && n <= |log|
    ensures DistinctIds(log[..n])
  {
  }

  /** The edges of one mutator on the path down to `cur`. */
  ghost function PathAbove(entries: Entries, cur: Option<Id>, mutator: MutatorId): seq<Meta>
    requires Acyclic(entries)
  {
    if cur.None? then [] else WithMutator(Ancestry(entries, cur.value), mutator)
  }

  lemma NothingAbove(entries: Entries, id: Id, mutator: MutatorId)
    requires Acyclic(entries) && id !in entries
    ensures PathAbove(entries, Some(id), mutator) == []
  {
  }

  lemma NothingReversed(path: seq<Meta>)
    ensures path == path + Reversed([])
  {
  }

  lemma OneStepUp(entries: Entries, id: Id, mutator: MutatorId, collected: seq<Meta>)
    requires Acyclic(entries) && id in entries
    ensures entries[id].parentId.Some? && entries[id].parentId.value in entries ==>
      entries[entries[id].parentId.value].admissionSeq < entries[id].admissionSeq
    ensures PathAbove(entries, Some(id), mutator) + Reversed(collected)
      == PathAbove(entries, entries[id].parentId, mutator) + Reversed(collected + IfBy(entries[id], mutator))
  {
    var meta, chain := entries[id], Ancestry(entries, id);
    var above, mine := PathAbove(entries, meta.parentId, mutator), IfBy(meta, mutator);
    assert PathAbove(entries, Some(id), mutator) == above + mine by {
      var before := chain[..|chain| - 1];
      assert WithMutator(before, mutator) == above by {
        if meta.parentId.Some? {
          assert before == Ancestry(entries, meta.parentId.value);
        } else {
          assert before == [];
        }
      }
    }
    assert Reversed(collected + mine) == mine + Reversed(collected) by {
      hide Ancestry, Acyclic, WithMutator;
      ReversedAppends(collected, meta);
      assert collected + [] == collected && [] + Reversed(collected) == Reversed(collected);
    }
    Regroup(above, mine, Reversed(collected));
  }

  lemma Regroup(a: seq<Meta>, b: seq<Meta>, c: seq<Meta>)
    ensures (a + b) + c == a + (b + c)
  {
  }
}
