/**
 The coordinator's admission path and its restart. The methods update the index and the derived state in place;
 what they keep is that the derived state is the one the durable metadata determines.
 Modelled with the residual channel on.
 */
module Coordinator {
  import opened Wrappers
  import opened Words
  import opened Signals
  import opened Morphology
  import opened Corpus
  import opened Sorting
  import opened Replay
  import opened Admission
  import Regime

  const MAX_FEATURES_PER_ENTRY: nat := 0x1_0000

  datatype AdmitError = TooManyFeatures | Collision

  /** The durable objects that matter here: corpus metadata, in the order written, and closed episodes. */
  class ObjectStore {
    var metas: seq<Meta>
    var episodes: set<Closing>

    constructor ()
      ensures metas == [] && episodes == {}
    {
      metas, episodes := [], {};
    }
  }

  /** An order sent to a worker: what the coordinator knew about the parent when it sent it. */
  datatype PendingOrder = PendingOrder(parentId: Id, parentSignals: SignalVector, parentGeneration: u32)

  predicate Matches(pend: PendingOrder, entries: Entries) {
    && pend.parentId in entries
    && entries[pend.parentId].signals == pend.parentSignals
    && entries[pend.parentId].generation == pend.parentGeneration
  }

  /** One reported execution; `entryId` is the content id of the reconstructed input. */
  datatype Discovery = Discovery(ok: bool, entryId: Id, features: seq<u64>, signals: SignalVector, mutator: MutatorId)

  /** The metadata a seed gets. */
  function SeedMeta(id: Id, features: seq<u64>, signals: SignalVector, admissionSeq: u64): Meta {
    Meta(id, None, 0, SortedDistinct(features), Seed, signals, None, None, admissionSeq)
  }

  /** The metadata an admitted discovery gets. */
  function EdgeMeta(pend: PendingOrder, d: Discovery, reason: AdmissionReason, morphologyId: Id, admissionSeq: u64): Meta {
    Meta(d.entryId, Some(pend.parentId), NextGeneration(pend.parentGeneration), SortedDistinct(d.features),
         reason, d.signals, Some(d.mutator), Some(morphologyId), admissionSeq)
  }

  /** Store, index and state agree: the metadata is a written log, the index files it, the state is derived from it. */
  ghost predicate Agrees<S>(store: ObjectStore, index: CorpusIndex, state: CampaignState<S>)
    reads store, index, state
  {
    && index.Valid() && index.entries == EntriesOf(store.metas)
    && Written(state.env, store.metas)
    && state.View() == Live(state.env, store.metas)
    && store.episodes == LiveEpisodes(state.env, store.metas)
  }

  class CampaignState<S> {
    const env: Env<S>
    var stateFeatures: set<(Axis, u8)>
    var morphIdentities: set<u64>
    var lineages: map<Key, LineageState>
    var rootDsfb: map<Id, S>
    var rootOrdinals: map<Id, u64>
    var admissionSeq: u64
    var closedEpisodes: u64

    function View(): Derived<S>
      reads this
    {
      Derived(stateFeatures, morphIdentities, lineages, rootDsfb, rootOrdinals, admissionSeq, closedEpisodes)
    }

    constructor (env: Env<S>)
      ensures this.env == env && View() == NothingDerived()
    {
      this.env := env;
      stateFeatures, morphIdentities, lineages := {}, {}, map[];
      rootDsfb, rootOrdinals := map[], map[];
      admissionSeq, closedEpisodes := 0, 0;
    }

    /** `feed_root_structural`. */
    method FeedRootStructural(root: Id, edge: Residual, generation: u32)
      modifies this`rootDsfb, this`rootOrdinals
      ensures View() == FeedRoot(env, old(View()), root, edge, generation)
    {
      if root !in rootDsfb {
        if !Moves(edge) {
          return;
        }
        rootDsfb := rootDsfb[root := env.newSubstrate(root)];
        rootOrdinals := rootOrdinals[root := 0];
      }
      var ordinal := WrappingInc(if root in rootOrdinals then rootOrdinals[root] else 0);
      rootOrdinals := rootOrdinals[root := ordinal];
      rootDsfb := rootDsfb[root := env.feedSubstrate(rootDsfb[root], ordinal, edge, generation)];
      assert rootDsfb == FeedRoot(env, old(View()), root, edge, generation).rootDsfb;
      assert rootOrdinals == FeedRoot(env, old(View()), root, edge, generation).rootOrdinals;
    }

    /** Writes the closed episodes of one edge and counts them. */
    method WriteEpisodes(store: ObjectStore, closed: seq<Closing>)
      modifies this`closedEpisodes, store`episodes
      ensures closedEpisodes == CountClosed(old(closedEpisodes), |closed|)
      ensures store.episodes == old(store.episodes) + set c | c in closed
    {
      for i := 0 to |closed|
        invariant closedEpisodes == CountClosed(old(closedEpisodes), i)
        invariant store.episodes == old(store.episodes) + set c | c in closed[..i]
      {
        assert closed[..i + 1] == closed[..i] + [closed[i]];
        store.episodes := store.episodes + {closed[i]};
        closedEpisodes := SaturatingInc(closedEpisodes);
      }
      assert closed[..|closed|] == closed;
    }

    /** Feeds one sample to the observer of every axis the edge moved. */
    static method FeedMoved(cfg: Regime.Config, ls: LineageState, edge: Residual)
      returns (observers: map<Axis, Regime.Snapshot>, closed: seq<Closing>)
      ensures (observers, closed) == FeedObservers(cfg, ls.observers, ls.ordinal, edge, AXES)
    {
      hide Regime.Step;
      observers, closed := ls.observers, [];
      for i := 0 to AXES
        invariant (observers, closed) == FeedObservers(cfg, ls.observers, ls.ordinal, edge, i)
      {
        if edge.Delta(i) != 0 {
          var (o, episode) := Regime.Step(cfg, ObserverAt(observers, i), ls.ordinal, edge.child.values[i]);
          observers := observers[i := o];
          if episode.Some? {
            closed := closed + [(i, episode.value)];
          }
        }
      }
    }

    /** `rebuild`: replays the index in admission order. On success the state and the written episodes are
        those of the replay; it fails exactly when the replay does. */
    method Rebuild(store: ObjectStore, index: CorpusIndex, ghost order: seq<Meta>) returns (r: Result<(), ReplayError>)
      requires index.Valid() && View() == NothingDerived()
      requires Lists(order, index.entries) && Ordered(order, InAdmissionOrder())
      modifies this, store`episodes
      ensures r.Ok? <==> ReplayLog(env, index.entries, order).Ok?
      ensures r.Ok? ==> View() == ReplayLog(env, index.entries, order).value
      ensures r.Ok? ==> store.episodes == old(store.episodes) + ReplayEpisodes(env, index.entries, order)
      ensures r.Err? ==> r.error == ReplayLog(env, index.entries, order).error
    {
      hide *;
      var metas := index.ByAdmissionOrder();
      AdmissionOrderIsUnique(metas, order, index.entries);
      NothingToReplay(env, index.entries, order[..0]);
      WholeLog(order);
      for i := 0 to |metas|
        invariant ReplayLog(env, index.entries, order[..i]) == Ok(View())
        invariant store.episodes == old(store.episodes) + ReplayEpisodes(env, index.entries, order[..i])
        invariant index.entries == old(index.entries)
      {
        ReplaySteps(env, index.entries, order, i);
        var absorbed := ReplayEntry(store, index, metas[i]);
        if absorbed.Err? {
          ReplayFails(env, index.entries, order, i + 1);
          return Err(absorbed.error);
        }
      }
      return Ok(());
    }

    /** The body of the loop in `rebuild`. */
    method ReplayEntry(store: ObjectStore, index: CorpusIndex, meta: Meta) returns (r: Result<(), ReplayError>)
      modifies this, store`episodes
      ensures var absorbed := Absorb(env, index.entries, old(View()), meta);
        match absorbed
        case Ok(d) => r.Ok? && View() == d && store.episodes == old(store.episodes)
          + ClosedBy(env, index.entries, old(View()), meta, RootOf(index.entries, meta.entryId))
        case Err(e) => r == Err(e)
    {
      hide FeedObservers, FeedRoot, RootOf, PushState, SignatureOf, StateBuckets, LineageAt, EdgeOf, Remember, Moves;
      ghost var before := View();
      admissionSeq := Replay.Max(admissionSeq, SaturatingInc(meta.admissionSeq));
      stateFeatures := stateFeatures + StateBuckets(meta.signals);
      if meta.mutatorId.None? {
        return Ok(());
      }
      var root := index.FindRoot(meta.entryId);
      if root.None? {
        return Err(CorruptRoot);
      }
      var key := (root.value, meta.mutatorId.value);
      var edge := EdgeOf(index.entries, meta);
      var ls := LineageAt(index.entries, lineages, key);
      var acc := PushState(ls.acc, edge);
      var morph := SignatureOf(acc, edge, meta.generation);
      if meta.morphologyId.Some? && meta.morphologyId.value != env.morphologyId(morph) {
        return Err(MorphologyDisagrees);
      }
      ls := ls.(acc := acc, frontier := Some(meta.entryId), ordinal := SaturatingInc(ls.ordinal));
      morphIdentities := morphIdentities + {env.identity(morph)};
      var observers, closed := FeedMoved(env.regime, ls, edge);
      ls := ls.(observers := observers, history := Remember(ls.history, meta.generation, morph));
      lineages := lineages[key := ls];
      assert AdvanceOf(env, index.entries, before, meta, root.value) == Advance(ls, morph, closed);
      WriteEpisodes(store, closed);
      FeedRootStructural(root.value, edge, meta.generation);
      return Ok(());
    }

    /** `admit_seed`. A known input is left alone; a new one is written, filed and absorbed. */
    method AdmitSeed(store: ObjectStore, index: CorpusIndex, id: Id, features: seq<u64>, signals: SignalVector)
      returns (r: Result<(), AdmitError>)
      requires Agrees(store, index, this) && |store.metas| < TWO_64
      modifies this, index, store`metas
      ensures r.Ok? ==> Agrees(store, index, this)
      ensures r.Err? <==> id !in old(index.entries) && |SortedDistinct(features)| > MAX_FEATURES_PER_ENTRY
      ensures r.Err? || id in old(index.entries) ==> store.metas == old(store.metas) && index.entries == old(index.entries)
      ensures r.Ok? && id in old(index.entries) ==> View() == old(View())
      ensures r.Ok? && id !in old(index.entries) ==>
        store.metas == old(store.metas) + [SeedMeta(id, features, signals, |old(store.metas)|)]
    {
      hide Live, EntriesOf, Written, LiveEpisodes, SortedDistinct, CorpusIndex.Valid;
      ghost var log := store.metas;
      LiveCounts(env, log);
      if id in index.entries {
        return Ok(());
      }
      var meta := SeedMeta(id, features, signals, admissionSeq);
      admissionSeq := SaturatingInc(admissionSeq);
      if |meta.features| > MAX_FEATURES_PER_ENTRY {
        return Err(TooManyFeatures);
      }
      store.metas := store.metas + [meta];
      var inserted := index.InsertMeta(meta);
      stateFeatures := stateFeatures + StateBuckets(signals);
      SeedIsAdmissible(env, log, meta);
      AdmissionExtends(env, log, meta);
      return Ok(());
    }

    /** The morphology of a discovery, without committing anything. */
    method TentativeMorphology(index: CorpusIndex, pend: PendingOrder, edge: Residual, mutator: MutatorId)
      returns (morph: Signature, isNew: bool)
      ensures morph == MorphologyOf(index.entries, View(), pend, edge, mutator)
      ensures isNew == (env.identity(morph) !in morphIdentities)
    {
      hide PushState, SignatureOf, RootOf;
      var root := index.FindRoot(pend.parentId);
      var key := (if root.Some? then root.value else pend.parentId, mutator);
      var acc := PushState(LineageAt(index.entries, lineages, key).acc, edge);
      morph := SignatureOf(acc, edge, NextGeneration(pend.parentGeneration));
      isNew := env.identity(morph) !in morphIdentities;
    }

    /** Commits the accumulator of an admitted discovery. */
    method CommitMorphology(index: CorpusIndex, pend: PendingOrder, edge: Residual, mutator: MutatorId)
      returns (morph: Signature)
      modifies this`lineages
      ensures morph == MorphologyOf(index.entries, old(View()), pend, edge, mutator)
      ensures var key := (RootOrParent(index.entries, pend.parentId), mutator);
        var ls := LineageAt(index.entries, old(lineages), key);
        lineages == old(lineages)[key := ls.(acc := PushState(ls.acc, edge))]
    {
      hide PushState, SignatureOf, RootOf;
      var root := index.FindRoot(pend.parentId);
      var key := (if root.Some? then root.value else pend.parentId, mutator);
      var ls := LineageAt(index.entries, lineages, key);
      var acc := PushState(ls.acc, edge);
      morph := SignatureOf(acc, edge, NextGeneration(pend.parentGeneration));
      lineages := lineages[key := ls.(acc := acc)];
    }

    /** The lineage, regime and substrate updates after an entry has been filed. */
    method AdvanceLive(store: ObjectStore, index: CorpusIndex, pend: PendingOrder, edge: Residual, d: Discovery,
                       morph: Signature)
      requires (RootOrParent(index.entries, pend.parentId), d.mutator) in lineages
      modifies this`lineages, this`rootDsfb, this`rootOrdinals, this`closedEpisodes, store`episodes
      ensures var root := RootOrParent(index.entries, pend.parentId);
        var key, generation := (root, d.mutator), NextGeneration(pend.parentGeneration);
        var (ls, closed) := Resumed(env, old(lineages)[key], edge, d.entryId, generation, morph);
        && store.episodes == old(store.episodes) + (set c | c in closed)
        && View() == FeedRoot(env, old(View()).(
             lineages := old(lineages)[key := ls],
             closedEpisodes := CountClosed(old(closedEpisodes), |closed|)), root, edge, generation)
    {
      hide FeedObservers, FeedRoot, RootOf;
      var found := index.FindRoot(pend.parentId);
      var root := if found.Some? then found.value else pend.parentId;
      var key := (root, d.mutator);
      var generation := NextGeneration(pend.parentGeneration);
      var ls := lineages[key];
      ls := ls.(frontier := Some(d.entryId), ordinal := SaturatingInc(ls.ordinal));
      var observers, closed := FeedMoved(env.regime, ls, edge);
      ls := ls.(observers := observers, history := Remember(ls.history, generation, morph));
      lineages := lineages[key := ls];
      ghost var before := View();
      FeedRootStructural(root, edge, generation);
      WriteEpisodes(store, closed);
      FeedRootKeepsCount(env, before, root, edge, generation, closedEpisodes);
    }

    /** The admission part of `process_result` for one discovery: decided on what it brings, then committed,
        written, filed and absorbed. A refused discovery changes nothing. */
    method Process(store: ObjectStore, index: CorpusIndex, pend: PendingOrder, d: Discovery)
      returns (r: Result<Option<Decision>, AdmitError>)
      requires Agrees(store, index, this) && Matches(pend, index.entries) && |store.metas| < TWO_64
      modifies this, index, store
      ensures r.Ok? ==> Agrees(store, index, this)
      ensures r.Ok? ==> (r.value.Some? <==>
        d.ok && d.entryId !in old(index.entries)
        && (BringsCoverage(old(index.entries), d.features)
            || BringsResidual(Some(SeenBy(env, old(index.entries), old(View()), pend, d)), true)))
      ensures r.Err? || r.value.None? ==> store.metas == old(store.metas) && index.entries == old(index.entries)
      ensures r == Ok(None) ==> View() == old(View()) && store.episodes == old(store.episodes)
      ensures r.Ok? && r.value.Some? ==>
        store.metas == old(store.metas) + [EdgeMeta(pend, d, r.value.value.reason,
          env.morphologyId(MorphologyOf(old(index.entries), old(View()), pend, EdgeIn(pend, d), d.mutator)),
          |old(store.metas)|)]
      ensures r.Err? ==> |SortedDistinct(d.features)| > MAX_FEATURES_PER_ENTRY
    {
      hide *;
      if !d.ok {
        return Ok(None);
      }
      var edge := EdgeIn(pend, d);
      var tentative, isNew := TentativeMorphology(index, pend, edge, d.mutator);
      var seen := ResidualInput(StateBuckets(d.signals) - stateFeatures, isNew, Some(Classify(tentative)));
      assert seen == SeenBy(env, index.entries, View(), pend, d) by { SeenIs(this, index, pend, d); }
      var decision := Decide(index, d.features, false, Some(seen), true) by { AgreesMeans(store, index, this); }
      if decision.None? || d.entryId in index.entries {
        return Ok(None);
      }
      var committed := Commit(store, index, pend, d, edge, decision.value);
      if committed.Err? {
        return Err(committed.error);
      }
      return Ok(decision);
    }

    /** Everything after the decision to admit. */
    method Commit(store: ObjectStore, index: CorpusIndex, pend: PendingOrder, d: Discovery, edge: Residual,
                  decision: Decision) returns (r: Result<(), AdmitError>)
      requires Agrees(store, index, this) && Matches(pend, index.entries) && |store.metas| < TWO_64
      requires d.entryId !in index.entries && edge == EdgeIn(pend, d)
      modifies this, index, store
      ensures r.Ok? ==> Agrees(store, index, this)
      ensures r.Err? <==> |SortedDistinct(d.features)| > MAX_FEATURES_PER_ENTRY
      ensures r.Err? ==> store.metas == old(store.metas) && index.entries == old(index.entries)
      ensures r.Ok? ==>
        store.metas == old(store.metas) + [EdgeMeta(pend, d, decision.reason,
          env.morphologyId(MorphologyOf(old(index.entries), old(View()), pend, edge, d.mutator)), |old(store.metas)|)]
    {
      hide Live, EntriesOf, Written, LiveEpisodes, SortedDistinct, CorpusIndex.Valid, FeedObservers, FeedRoot, RootOf,
        PushState, SignatureOf, Admissible, MorphologyOf, AdvanceOf, WithEdge, RootOrParent, LineageAt;
      ghost var log, before := store.metas, View();
      LiveCounts(env, log);
      var morph := CommitMorphology(index, pend, edge, d.mutator);
      morphIdentities := morphIdentities + {env.identity(morph)};
      stateFeatures := stateFeatures + StateBuckets(d.signals);
      var meta := EdgeMeta(pend, d, decision.reason, env.morphologyId(morph), admissionSeq);
      admissionSeq := SaturatingInc(admissionSeq);
      if |meta.features| > MAX_FEATURES_PER_ENTRY {
        return Err(TooManyFeatures);
      }
      EdgeIsAdmissible(env, log, pend, d, meta);
      store.metas := store.metas + [meta];
      var inserted := index.InsertMeta(meta);
      AdmissionExtends(env, log, meta);
      RootUnmoved(env, log, meta);
      EdgeAbsorbs(env, log, pend, d, meta, morph);
      ghost var root := RootOrParent(EntriesOf(log), pend.parentId);
      ghost var key, ls := (root, d.mutator), lineages[(root, d.mutator)];
      ghost var resumed := Resumed(env, ls, edge, d.entryId, meta.generation, morph);
      assert before.lineages[key := ls][key := resumed.0] == before.lineages[key := resumed.0];
      assert lineages == before.lineages[key := ls];
      hide Resumed;
      AdvanceLive(store, index, pend, edge, d, morph);
      return Ok(());
    }
  }

  function EdgeIn(pend: PendingOrder, d: Discovery): Residual {
    Residual(pend.parentSignals, d.signals)
  }

  function Classify(sig: Signature): StructuralClass {
    if sig.axisMask == {} then Trivial else Unnamed
  }

  /** What the residual channel sees of a discovery. */
  function SeenBy<S>(env: Env<S>, entries: Entries, d: Derived<S>, pend: PendingOrder, disc: Discovery): ResidualInput {
    var morph := MorphologyOf(entries, d, pend, EdgeIn(pend, disc), disc.mutator);
    ResidualInput(StateBuckets(disc.signals) - d.stateFeatures,
                  env.identity(morph) !in d.morphIdentities,
                  Some(Classify(morph)))
  }

  lemma SeenIs<S>(state: CampaignState<S>, index: CorpusIndex, pend: PendingOrder, d: Discovery)
    ensures SeenBy(state.env, index.entries, state.View(), pend, d)
      == var morph := MorphologyOf(index.entries, state.View(), pend, EdgeIn(pend, d), d.mutator);
         ResidualInput(StateBuckets(d.signals) - state.stateFeatures,
                       state.env.identity(morph) !in state.morphIdentities, Some(Classify(morph)))
  {
  }

  lemma AgreesMeans<S>(store: ObjectStore, index: CorpusIndex, state: CampaignState<S>)
    requires Agrees(store, index, state)
    ensures index.Valid()
  {
  }

  /** The metadata an admission writes is what the log expects next. */
  lemma EdgeIsAdmissible<S>(env: Env<S>, log: seq<Meta>, pend: PendingOrder, d: Discovery, meta: Meta)
    requires Written(env, log) && Matches(pend, EntriesOf(log)) && d.entryId !in EntriesOf(log)
    requires meta == EdgeMeta(pend, d, meta.reason,
      env.morphologyId(MorphologyOf(EntriesOf(log), Live(env, log), pend, EdgeIn(pend, d), d.mutator)), meta.admissionSeq)
    requires meta.admissionSeq == |log|
    ensures Admissible(env, log, meta)
    ensures RootOf(EntriesOf(log), pend.parentId) == Some(RootOrParent(EntriesOf(log), pend.parentId))
    ensures EdgeOf(EntriesOf(log), meta) == EdgeIn(pend, d)
  {
    hide Live, EntriesOf, Written, SortedDistinct, PushState, SignatureOf, RootOf, FeedObservers;
    WrittenIsNumbered(env, log);
    RootOfFindsSeed(EntriesOf(log), pend.parentId);
  }

  /** Filing an admitted entry does not change the root of its parent. */
  lemma RootUnmoved<S>(env: Env<S>, log: seq<Meta>, meta: Meta)
    requires Written(env, log) && Admissible(env, log, meta) && meta.parentId.Some?
    ensures RootOrParent(EntriesOf(log)[meta.entryId := meta], meta.parentId.value)
         == RootOrParent(EntriesOf(log), meta.parentId.value)
  {
    AdmissionExtends(env, log, meta);
    AdmissibleMeans(env, log, meta);
    hide EntriesOf, Written, Admissible, RootOf;
    WrittenIsNumbered(env, log);
    WrittenIsNumbered(env, log + [meta]);
    var entries := EntriesOf(log);
    SeedAncestorIsStable(entries, entries[meta.entryId := meta], meta.parentId.value);
    RootOfFindsSeed(entries, meta.parentId.value);
    RootOfFindsSeed(entries[meta.entryId := meta], meta.parentId.value);
  }

  /** A lineage whose accumulator is committed, after the rest of the live update. */
  function Resumed<S>(env: Env<S>, ls: LineageState, edge: Residual, id: Id, generation: u32, morph: Signature)
    : (LineageState, seq<Closing>)
  {
    var moved := ls.(frontier := Some(id), ordinal := SaturatingInc(ls.ordinal));
    var (observers, closed) := FeedObservers(env.regime, moved.observers, moved.ordinal, edge, AXES);
    (moved.(observers := observers, history := Remember(moved.history, generation, morph)), closed)
  }

  /** Committing first and advancing afterwards is absorbing in one go. */
  lemma EdgeAbsorbs<S>(env: Env<S>, log: seq<Meta>, pend: PendingOrder, d: Discovery, meta: Meta, morph: Signature)
    requires meta == EdgeMeta(pend, d, meta.reason, env.morphologyId(morph), meta.admissionSeq)
    requires morph == MorphologyOf(EntriesOf(log), Live(env, log), pend, EdgeIn(pend, d), d.mutator)
    requires RootOf(EntriesOf(log), pend.parentId) == Some(RootOrParent(EntriesOf(log), pend.parentId))
    requires EdgeOf(EntriesOf(log), meta) == EdgeIn(pend, d) && Live(env, log).admissionSeq == meta.admissionSeq
    ensures var entries, live := EntriesOf(log), Live(env, log);
      var root, edge := RootOrParent(entries, pend.parentId), EdgeIn(pend, d);
      var ls := LineageAt(entries, live.lineages, (root, d.mutator));
      var committed := ls.(acc := PushState(ls.acc, edge));
      var (resumed, closed) := Resumed(env, committed, edge, d.entryId, meta.generation, morph);
      && Admitted(env, log, meta) == FeedRoot(env, Derived(
           live.stateFeatures + StateBuckets(d.signals), live.morphIdentities + {env.identity(morph)},
           live.lineages[(root, d.mutator) := resumed], live.rootDsfb, live.rootOrdinals,
           SaturatingInc(live.admissionSeq), CountClosed(live.closedEpisodes, |closed|)),
           root, edge, meta.generation)
      && ClosedBy(env, entries, live, meta, ParentRoot(entries, meta)) == set c | c in closed
  {
    hide Live, EntriesOf, SortedDistinct, PushState, SignatureOf, RootOf, FeedObservers, FeedRoot, LineageAt, StateBuckets;
  }

  function RootOrParent(entries: Entries, parent: Id): Id {
    var root := RootOf(entries, parent);
    if root.Some? then root.value else parent
  }

  /** The signature a discovery would get. */
  function MorphologyOf<S>(entries: Entries, d: Derived<S>, pend: PendingOrder, edge: Residual, mutator: MutatorId): Signature {
    var key := (RootOrParent(entries, pend.parentId), mutator);
    SignatureOf(PushState(LineageAt(entries, d.lineages, key).acc, edge), edge, NextGeneration(pend.parentGeneration))
  }

  lemma FeedRootKeepsCount<S>(env: Env<S>, d: Derived<S>, root: Id, edge: Residual, generation: u32, n: u64)
    ensures FeedRoot(env, d.(closedEpisodes := n), root, edge, generation)
         == FeedRoot(env, d, root, edge, generation).(closedEpisodes := n)
  {
  }

  lemma SeedIsAdmissible<S>(env: Env<S>, log: seq<Meta>, meta: Meta)
    requires meta.parentId.None? && meta.mutatorId.None? && meta.generation == 0
    requires meta.entryId !in EntriesOf(log) && meta.admissionSeq == |log|
    ensures Admissible(env, log, meta) && ParentRoot(EntriesOf(log), meta) == None
    ensures Admitted(env, log, meta) == Noted(Live(env, log), meta)
    ensures ClosedBy(env, EntriesOf(log), Live(env, log), meta, None) == {}
  {
  }

  /** What the coordinator notes about a parent when it sends an order. */
  method Dispatch(index: CorpusIndex, parent: Id) returns (pend: PendingOrder)
    requires parent in index.entries
    ensures pend.parentId == parent && Matches(pend, index.entries)
  {
    var meta := index.entries[parent];
    pend := PendingOrder(parent, meta.signals, meta.generation);
  }

  /** Orders in flight stay accurate while other results are admitted. */
  lemma PendingStaysAccurate<S>(env: Env<S>, log: seq<Meta>, n: nat, pend: PendingOrder)
    requires Written(env, log) && n <= |log| && Matches(pend, EntriesOf(log[..n]))
    ensures Matches(pend, EntriesOf(log))
  {
    WrittenPrefix(env, log, n);
  }

  /** A campaign over an empty store. */
  method Begin<S>(env: Env<S>) returns (store: ObjectStore, index: CorpusIndex, state: CampaignState<S>)
    ensures fresh(store) && fresh(index) && fresh(state) && state.env == env
    ensures store.metas == [] && Agrees(store, index, state)
  {
    store := new ObjectStore();
    index := new CorpusIndex();
    state := new CampaignState<S>(env);
    assert EntriesOf([]) == map[];
  }

  /** What a store can hold when a process dies, at any point: the metadata of the admissions so far, and some of
      their closed episodes, as an admission stores its metadata before the episodes it closes. */
  ghost predicate Recoverable<S>(env: Env<S>, metas: seq<Meta>, episodes: set<Closing>) {
    Written(env, metas) && episodes <= LiveEpisodes(env, metas)
  }

  lemma RecoverableMeans<S>(env: Env<S>, metas: seq<Meta>, episodes: set<Closing>)
    ensures Recoverable(env, metas, episodes) <==> Written(env, metas) && episodes <= LiveEpisodes(env, metas)
  {
  }

  /** A death inside an admission, after its metadata and any of its episodes were stored. */
  lemma DeathInsideAdmission<S>(env: Env<S>, log: seq<Meta>, meta: Meta, stored: set<Closing>)
    requires Written(env, log) && Admissible(env, log, meta)
    requires stored <= ClosedBy(env, EntriesOf(log), Live(env, log), meta, ParentRoot(EntriesOf(log), meta))
    ensures Recoverable(env, log + [meta], LiveEpisodes(env, log) + stored)
  {
    hide Live, Admissible, ClosedBy, EntriesOf, ParentRoot;
    assert (log + [meta])[..|log|] == log;
  }

  /** A restart after a death at any point: a new process rebuilds the index from the stored objects, in whatever
      order they are listed, and the state from the index. It always succeeds, derives exactly the live state of the
      stored admissions, and completes their episodes. */
  method Restart<S>(env: Env<S>, store: ObjectStore, listing: seq<Meta>)
    returns (index: CorpusIndex, state: CampaignState<S>)
    requires Recoverable(env, store.metas, store.episodes) && multiset(listing) == multiset(store.metas)
    modifies store`episodes
    ensures fresh(index) && fresh(state) && state.env == env
    ensures Agrees(store, index, state)
    ensures index.entries == EntriesOf(store.metas) && state.View() == Live(env, store.metas)
    ensures store.episodes == LiveEpisodes(env, store.metas)
  {
    hide *;
    RecoverableMeans(env, store.metas, store.episodes);
    ghost var order := store.metas;
    WrittenIsOrdered(env, order);
    PermutationLists(order, listing, EntriesOf(order));
    ListingsFix(listing, EntriesOf(order));
    RebuildRecovers(env, order, listing, order);
    var rebuilt := CorpusIndex.Rebuild(listing);
    index := rebuilt.value;
    state := new CampaignState<S>(env);
    var replayed := state.Rebuild(store, index, order);
    AgreesIs(store, index, state);
  }

  /** After a death between admissions the restart recovers exactly the state of the process before, and writes
      nothing that was not there. */
  method RestartBetweenAdmissions<S>(store: ObjectStore, oldIndex: CorpusIndex, oldState: CampaignState<S>, listing: seq<Meta>)
    returns (index: CorpusIndex, state: CampaignState<S>)
    requires Agrees(store, oldIndex, oldState) && multiset(listing) == multiset(store.metas)
    modifies store`episodes
    ensures fresh(index) && fresh(state) && state.env == oldState.env && Agrees(store, index, state)
    ensures index.entries == oldIndex.entries && state.View() == oldState.View()
    ensures store.episodes == old(store.episodes)
  {
    hide Written, Live, LiveEpisodes, EntriesOf, CorpusIndex.Valid;
    index, state := Restart(oldState.env, store, listing);
  }

  lemma AgreesIs<S>(store: ObjectStore, index: CorpusIndex, state: CampaignState<S>)
    ensures Agrees(store, index, state) <==>
      && index.Valid() && index.entries == EntriesOf(store.metas)
      && Written(state.env, store.metas)
      && state.View() == Live(state.env, store.metas)
      && store.episodes == LiveEpisodes(state.env, store.metas)
  {
  }
}
