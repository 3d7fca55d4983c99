/**
 The state a campaign derives from its corpus metadata. One function absorbs one admitted entry; folding
 it over the admissions as they happen (each with the index of that moment) and folding it over the whole
 durable corpus on restart (each with the final index) are proved to give the same state.
 */
module Replay {
  import opened Wrappers
  import opened Words
  import opened Signals
  import opened Morphology
  import opened Corpus
  import opened Sorting
  import Regime

  const HISTORY_CAP: nat := 8

  /** One (root, mutator) lineage. */
  datatype LineageState = LineageState(
    acc: Accumulator,
    observers: map<Axis, Regime.Snapshot>,
    history: seq<(u32, Signature)>,
    frontier: Option<Id>,
    ordinal: u64)

  /** The parts of a campaign that it does not hold itself: identities and the structural substrate. */
  datatype Env<!S> = Env(
    regime: Regime.Config,
    identity: Signature -> u64,
    morphologyId: Signature -> Id,
    newSubstrate: Id -> S,
    feedSubstrate: (S, u64, Residual, u32) -> S)

  type Key = (Id, MutatorId)

  /** Everything a restart must recover. */
  datatype Derived<S> = Derived(
    stateFeatures: set<(Axis, u8)>,
    morphIdentities: set<u64>,
    lineages: map<Key, LineageState>,
    rootDsfb: map<Id, S>,
    rootOrdinals: map<Id, u64>,
    admissionSeq: u64,
    closedEpisodes: u64)

  datatype ReplayError = CorruptRoot | MorphologyDisagrees

  function NothingDerived<S>(): Derived<S> {
    Derived({}, {}, map[], map[], map[], 0, 0)
  }

  // ---- One entry ----

  function SaturatingInc(n: u64): u64 {
    if n == 0xFFFF_FFFF_FFFF_FFFF then n else n + 1
  }

  function WrappingInc(n: u64): u64 {
    if n == 0xFFFF_FFFF_FFFF_FFFF then 0 else n + 1
  }

  /** The depth below a parent, as an unchecked 32-bit increment. */
  function NextGeneration(g: u32): u32 {
    if g == 0xFFFF_FFFF then 0 else g + 1
  }

  /** The (signal, bucket) pairs an observation covers. */
  function StateBuckets(v: SignalVector): set<(Axis, u8)> {
    set i | i in v.touched :: (i, ValueBucket(v.values[i]))
  }

  /** What a missing parent counts as. */
  function Unobserved(): SignalVector {
    SignalVector(seq(AXES, i => 0), {})
  }

  /** The difference between an entry and its parent, as replay reads it off the index. */
  function EdgeOf(entries: Entries, meta: Meta): Residual {
    Residual(if meta.parentId.Some? && meta.parentId.value in entries
             then entries[meta.parentId.value].signals else Unobserved(),
             meta.signals)
  }

  /** The lineage of a key; a new one starts from its root's observation. */
  function LineageAt(entries: Entries, lineages: map<Key, LineageState>, key: Key): LineageState {
    if key in lineages then lineages[key]
    else
      LineageState(if key.0 in entries then WithBaseline(Fresh(), entries[key.0].signals) else Fresh(),
                   map[], [], None, 0)
  }

  type Closing = (Axis, Regime.Episode)

  /** Feeds the observers of the axes below `n` that the edge moved. */
  function FeedObservers(cfg: Regime.Config, observers: map<Axis, Regime.Snapshot>, ordinal: u64, edge: Residual,
                         n: nat): (map<Axis, Regime.Snapshot>, seq<Closing>)
    requires n <= AXES
  {
    if n == 0 then (observers, [])
    else
      var (fed, closed) := FeedObservers(cfg, observers, ordinal, edge, n - 1);
      if edge.Delta(n - 1) == 0 then (fed, closed)
      else
        var (o, episode) := Regime.Step(cfg, ObserverAt(fed, n - 1), ordinal, edge.child.values[n - 1]);
        (fed[n - 1 := o], if episode.Some? then closed + [(n - 1, episode.value)] else closed)
  }

  function ObserverAt(observers: map<Axis, Regime.Snapshot>, i: Axis): Regime.Snapshot {
    if i in observers then observers[i] else Regime.FRESH
  }

  /** The shape history keeps the last few structured signatures. */
  function Remember(history: seq<(u32, Signature)>, depth: u32, sig: Signature): seq<(u32, Signature)> {
    if sig.axisMask == {} then history
    else
      var longer := history + [(depth, sig)];
      if |longer| > HISTORY_CAP then longer[1..] else longer
  }

  datatype Advance = Advance(lineage: LineageState, sig: Signature, closed: seq<Closing>)

  /** A lineage after one admitted edge. */
  function AdvanceLineage(cfg: Regime.Config, ls: LineageState, edge: Residual, id: Id, generation: u32): Advance {
    var acc := PushState(ls.acc, edge);
    var sig := SignatureOf(acc, edge, generation);
    var ordinal := SaturatingInc(ls.ordinal);
    var (observers, closed) := FeedObservers(cfg, ls.observers, ordinal, edge, AXES);
    Advance(LineageState(acc, observers, Remember(ls.history, generation, sig), Some(id), ordinal), sig, closed)
  }

  function Moves(edge: Residual): bool {
    exists i: Axis :: i < AXES && edge.Delta(i) != 0
  }

  /** The root's substrate is created on the first edge that moves anything. */
  function FeedRoot<S>(env: Env<S>, d: Derived<S>, root: Id, edge: Residual, generation: u32): Derived<S> {
    if root !in d.rootDsfb && !Moves(edge) then d
    else
      var sub := if root in d.rootDsfb then d.rootDsfb[root] else env.newSubstrate(root);
      var ordinal := WrappingInc(if root in d.rootDsfb && root in d.rootOrdinals then d.rootOrdinals[root] else 0);
      d.(rootDsfb := d.rootDsfb[root := env.feedSubstrate(sub, ordinal, edge, generation)],
         rootOrdinals := d.rootOrdinals[root := ordinal])
  }

  function CountClosed(n: u64, closed: nat): u64 {
    if n + closed > 0xFFFF_FFFF_FFFF_FFFF then 0xFFFF_FFFF_FFFF_FFFF else n + closed
  }

  function Max(a: u64, b: u64): u64 {
    if a > b then a else b
  }

  /** What every entry, seed or not, adds. */
  function Noted<S>(d: Derived<S>, meta: Meta): Derived<S> {
    d.(admissionSeq := Max(d.admissionSeq, SaturatingInc(meta.admissionSeq)),
       stateFeatures := d.stateFeatures + StateBuckets(meta.signals))
  }

  /** How an edge entry advances its lineage, given the index and the root. */
  function AdvanceOf<S>(env: Env<S>, entries: Entries, d: Derived<S>, meta: Meta, root: Id): Advance
    requires meta.mutatorId.Some?
  {
    AdvanceLineage(env.regime, LineageAt(entries, d.lineages, (root, meta.mutatorId.value)),
                   EdgeOf(entries, meta), meta.entryId, meta.generation)
  }

  /** The state after an edge entry below `root`. */
  function WithEdge<S>(env: Env<S>, entries: Entries, d: Derived<S>, meta: Meta, root: Id): Derived<S>
    requires meta.mutatorId.Some?
  {
    var a := AdvanceOf(env, entries, d, meta, root);
    var noted := Noted(d, meta);
    FeedRoot(env,
             noted.(lineages := noted.lineages[(root, meta.mutatorId.value) := a.lineage],
                    morphIdentities := noted.morphIdentities + {env.identity(a.sig)},
                    closedEpisodes := CountClosed(noted.closedEpisodes, |a.closed|)),
             root, EdgeOf(entries, meta), meta.generation)
  }

  /** One iteration of `rebuild`. */
  function Absorb<S>(env: Env<S>, entries: Entries, d: Derived<S>, meta: Meta): Result<Derived<S>, ReplayError> {
    if meta.mutatorId.None? then Ok(Noted(d, meta))
    else
      match RootOf(entries, meta.entryId)
      case None => Err(CorruptRoot)
      case Some(root) =>
        if meta.morphologyId.Some? && meta.morphologyId.value != env.morphologyId(AdvanceOf(env, entries, d, meta, root).sig)
        then Err(MorphologyDisagrees)
        else Ok(WithEdge(env, entries, d, meta, root))
  }

  /** The episodes that absorbing an entry closes. */
  function ClosedBy<S>(env: Env<S>, entries: Entries, d: Derived<S>, meta: Meta, root: Option<Id>): set<Closing> {
    if meta.mutatorId.None? || root.None? then {}
    else set c | c in AdvanceOf(env, entries, d, meta, root.value).closed
  }

  /** The whole of `rebuild`: the log in admission order against one index. */
  function ReplayLog<S>(env: Env<S>, entries: Entries, log: seq<Meta>): Result<Derived<S>, ReplayError> {
    if log == [] then Ok(NothingDerived())
    else
      match ReplayLog(env, entries, log[..|log| - 1])
      case Err(e) => Err(e)
      case Ok(d) => Absorb(env, entries, d, log[|log| - 1])
  }

  /** The episodes `rebuild` writes. */
  function ReplayEpisodes<S>(env: Env<S>, entries: Entries, log: seq<Meta>): set<Closing> {
    if log == [] then {}
    else
      var before, meta := log[..|log| - 1], log[|log| - 1];
      match ReplayLog(env, entries, before)
      case Err(_) => {}
      case Ok(d) => ReplayEpisodes(env, entries, before) + ClosedBy(env, entries, d, meta, RootOf(entries, meta.entryId))
  }

  // ---- What a campaign writes ----

  /** `meta` is what an admission writes after `log`: a new id, the next number, and for an edge a known parent
      and the morphology of its lineage (or none, if the residual channel was off). */
  ghost predicate Admissible<S>(env: Env<S>, log: seq<Meta>, meta: Meta) {
    var entries := EntriesOf(log);
    && meta.entryId !in entries
    && meta.admissionSeq == |log|
    && (meta.parentId.None? <==> meta.mutatorId.None?)
    && match meta.parentId
       case None => meta.generation == 0
       case Some(p) =>
         && p in entries
         && RootOf(entries, p).Some?
         && meta.generation == NextGeneration(entries[p].generation)
         && (meta.morphologyId.Some? ==>
              meta.morphologyId.value
                == env.morphologyId(AdvanceOf(env, entries, Live(env, log), meta, RootOf(entries, p).value).sig))
  }

  /** The root an admission works with: the seed ancestor of the parent. */
  function ParentRoot(entries: Entries, meta: Meta): Option<Id> {
    if meta.parentId.None? then None else RootOf(entries, meta.parentId.value)
  }

  /** The state after the admissions in `log`, each absorbed at its own time. */
  ghost function Live<S>(env: Env<S>, log: seq<Meta>): Derived<S>
    decreases |log|, 0
  {
    if log == [] then NothingDerived()
    else Admitted(env, log[..|log| - 1], log[|log| - 1])
  }

  /** The state after admitting `meta` on top of `log`. */
  ghost function Admitted<S>(env: Env<S>, log: seq<Meta>, meta: Meta): Derived<S>
    decreases |log|, 1
  {
    var root := ParentRoot(EntriesOf(log), meta);
    if meta.mutatorId.None? || root.None? then Noted(Live(env, log), meta)
    else WithEdge(env, EntriesOf(log), Live(env, log), meta, root.value)
  }

  /** The episodes written by the admissions in `log`. */
  ghost function LiveEpisodes<S>(env: Env<S>, log: seq<Meta>): set<Closing> {
    if log == [] then {}
    else
      var before, meta := log[..|log| - 1], log[|log| - 1];
      LiveEpisodes(env, before)
      + ClosedBy(env, EntriesOf(before), Live(env, before), meta, ParentRoot(EntriesOf(before), meta))
  }

  /** A log that admissions wrote, one after the other. */
  ghost predicate Written<S>(env: Env<S>, log: seq<Meta>) {
    log == [] || (Written(env, log[..|log| - 1]) && Admissible(env, log[..|log| - 1], log[|log| - 1]))
  }

  // ---- Written logs are well formed ----

  lemma AdmissibleMeans<S>(env: Env<S>, log: seq<Meta>, meta: Meta)
    requires Admissible(env, log, meta)
    ensures meta.entryId !in EntriesOf(log) && meta.admissionSeq == |log|
    ensures meta.parentId.Some? ==> meta.parentId.value in EntriesOf(log)
    ensures meta.generation ==
      if meta.parentId.None? then 0 else NextGeneration(EntriesOf(log)[meta.parentId.value].generation)
  {
  }

  predicate Numbered(log: seq<Meta>) {
    forall k | 0 <= k < |log| :: log[k].admissionSeq == k
  }

  lemma {:induction false} WrittenIsNumbered<S>(env: Env<S>, log: seq<Meta>)
    requires Written(env, log)
    ensures Numbered(log) && DistinctIds(log) && Grounded(EntriesOf(log))
  {
    if log != [] {
      hide Admissible, Grounded, DistinctIds, Numbered, EntriesOf;
      var before, last := log[..|log| - 1], log[|log| - 1];
      AdmissibleMeans(env, before, last);
      WrittenIsNumbered(env, before);
      assert log == before + [last];
      NumberedStep(before, last);
    } else {
      assert EntriesOf(log) == map[];
    }
  }

  lemma NumberedStep(log: seq<Meta>, meta: Meta)
    requires Numbered(log) && DistinctIds(log) && Grounded(EntriesOf(log))
    requires meta.entryId !in EntriesOf(log) && meta.admissionSeq == |log|
    requires meta.parentId.Some? ==> meta.parentId.value in EntriesOf(log)
    ensures Numbered(log + [meta]) && DistinctIds(log + [meta]) && Grounded(EntriesOf(log + [meta]))
  {
    hide *;
    OneMoreEntry(log, meta);
    NumberedExtends(log, meta);
    LogIsListed(log);
    NewId(log, EntriesOf(log), meta);
    DistinctIdsSplit(log, meta);
    StaysGrounded(log, meta);
  }

  lemma OneMoreEntry(log: seq<Meta>, meta: Meta)
    ensures EntriesOf(log + [meta]) == EntriesOf(log)[meta.entryId := meta]
  {
    assert (log + [meta])[..|log|] == log;
  }

  lemma NumberedExtends(log: seq<Meta>, meta: Meta)
    requires Numbered(log) && meta.admissionSeq == |log|
    ensures Numbered(log + [meta])
  {
  }

  lemma StaysGrounded(log: seq<Meta>, meta: Meta)
    requires Grounded(EntriesOf(log)) && Lists(log, EntriesOf(log))
    requires Numbered(log)
    requires meta.entryId !in EntriesOf(log) && meta.admissionSeq == |log|
    requires meta.parentId.Some? ==> meta.parentId.value in EntriesOf(log)
    ensures Grounded(EntriesOf(log)[meta.entryId := meta])
  {
    hide EntriesOf;
    forall id | id in EntriesOf(log) ensures EntriesOf(log)[id].admissionSeq < |log| {
      assert EntriesOf(log)[id] in log;
    }
  }

  lemma {:induction false} WrittenPrefix<S>(env: Env<S>, log: seq<Meta>, n: nat)
    requires Written(env, log) && n <= |log|
    ensures Written(env, log[..n])
    ensures n < |log| ==> Admissible(env, log[..n], log[n])
    ensures forall id | id in EntriesOf(log[..n]) :: id in EntriesOf(log) && EntriesOf(log)[id] == EntriesOf(log[..n])[id]
    decreases |log|
  {
    hide Admissible;
    if n == |log| {
      assert log[..n] == log;
    } else {
      var before := log[..|log| - 1];
      WrittenPrefix(env, before, n);
      assert before[..n] == log[..n];
      if n < |before| {
        assert before[n] == log[n];
      } else {
        assert log[..n] == before;
      }
      NotYetThere(env, before, log[|log| - 1]);
    }
  }

  lemma NotYetThere<S>(env: Env<S>, log: seq<Meta>, meta: Meta)
    requires Admissible(env, log, meta)
    ensures meta.entryId !in EntriesOf(log)
  {
  }

  // ---- Replay equals live ----

  /** An entry's root in the final index is its parent's root at the time of its admission. */
  lemma RootIsStable<S>(env: Env<S>, log: seq<Meta>, n: nat)
    requires Written(env, log) && n < |log| && log[n].parentId.Some?
    ensures var p := log[n].parentId.value;
      && p in EntriesOf(log[..n]) && p in EntriesOf(log) && EntriesOf(log)[p] == EntriesOf(log[..n])[p]
      && RootOf(EntriesOf(log), log[n].entryId) == RootOf(EntriesOf(log[..n]), p)
      && RootOf(EntriesOf(log[..n]), p).Some?
      && var root := RootOf(EntriesOf(log[..n]), p).value;
      root in EntriesOf(log[..n]) && root in EntriesOf(log) && EntriesOf(log)[root] == EntriesOf(log[..n])[root]
  {
    WrittenPrefix(env, log, n);
    assert log[..n + 1][..n] == log[..n];
    WrittenPrefix(env, log, n + 1);
    var before, all, meta := EntriesOf(log[..n]), EntriesOf(log), log[n];
    assert EntriesOf(log[..n + 1]) == before[meta.entryId := meta];
    hide EntriesOf, RootOf;
    var p := meta.parentId.value;
    WrittenIsNumbered(env, log);
    WrittenIsNumbered(env, log[..n]);
    RootOfFindsSeed(before, p);
    SeedAncestorIsStable(before, all, p);
    RootOfFindsSeed(all, meta.entryId);
    assert all[meta.entryId] == meta;
  }

  /** Absorbing entry `n` with the final index does what admitting it at its own time did. */
  lemma AbsorbIsStable<S>(env: Env<S>, log: seq<Meta>, n: nat)
    requires Written(env, log) && n < |log|
    ensures Absorb(env, EntriesOf(log), Live(env, log[..n]), log[n]) == Ok(Admitted(env, log[..n], log[n]))
    ensures ClosedBy(env, EntriesOf(log), Live(env, log[..n]), log[n], RootOf(EntriesOf(log), log[n].entryId))
         == ClosedBy(env, EntriesOf(log[..n]), Live(env, log[..n]), log[n], ParentRoot(EntriesOf(log[..n]), log[n]))
  {
    WrittenPrefix(env, log, n);
    var before, all, meta := EntriesOf(log[..n]), EntriesOf(log), log[n];
    if meta.mutatorId.Some? {
      RootIsStable(env, log, n);
      hide EntriesOf, RootOf, Live, AdvanceOf, WithEdge;
      SameIndexView(env, before, all, Live(env, log[..n]), meta, RootOf(before, meta.parentId.value).value);
    }
  }

  /** Advancing an entry reads only its parent and its root in the index. */
  lemma SameIndexView<S>(env: Env<S>, before: Entries, all: Entries, d: Derived<S>, meta: Meta, root: Id)
    requires meta.mutatorId.Some? && meta.parentId.Some?
    requires meta.parentId.value in before && meta.parentId.value in all
    requires before[meta.parentId.value] == all[meta.parentId.value]
    requires root in before && root in all && before[root] == all[root]
    ensures AdvanceOf(env, before, d, meta, root) == AdvanceOf(env, all, d, meta, root)
    ensures WithEdge(env, before, d, meta, root) == WithEdge(env, all, d, meta, root)
  {
    hide AdvanceLineage, FeedRoot;
  }

  /** Replaying a list of entries gives what admitting them gave. */
  ghost predicate ReplaysTo<S>(env: Env<S>, entries: Entries, before: seq<Meta>) {
    && ReplayLog(env, entries, before) == Ok(Live(env, before))
    && ReplayEpisodes(env, entries, before) == LiveEpisodes(env, before)
  }

  lemma ReplaysToMeans<S>(env: Env<S>, entries: Entries, log: seq<Meta>)
    ensures ReplaysTo(env, entries, log) <==>
      && ReplayLog(env, entries, log) == Ok(Live(env, log))
      && ReplayEpisodes(env, entries, log) == LiveEpisodes(env, log)
  {
  }

  lemma ReplayExtends<S>(env: Env<S>, entries: Entries, before: seq<Meta>, meta: Meta)
    requires ReplaysTo(env, entries, before)
    requires Absorb(env, entries, Live(env, before), meta) == Ok(Admitted(env, before, meta))
    requires ClosedBy(env, entries, Live(env, before), meta, RootOf(entries, meta.entryId))
          == ClosedBy(env, EntriesOf(before), Live(env, before), meta, ParentRoot(EntriesOf(before), meta))
    ensures ReplaysTo(env, entries, before + [meta])
  {
    hide Absorb, Admitted, ClosedBy, RootOf, ParentRoot, EntriesOf;
    assert (before + [meta])[..|before|] == before;
  }

  lemma {:induction false} PrefixReplays<S>(env: Env<S>, log: seq<Meta>, n: nat)
    requires Written(env, log) && n <= |log|
    ensures ReplaysTo(env, EntriesOf(log), log[..n])
  {
    hide *;
    if n == 0 {
      NothingToReplay(env, EntriesOf(log), log[..n]);
    } else {
      PrefixReplays(env, log, n - 1);
      AbsorbIsStable(env, log, n - 1);
      ReplayExtends(env, EntriesOf(log), log[..n - 1], log[n - 1]);
      OneLonger(log, n - 1);
    }
  }

  /** Replaying a written log, or the beginning of one, against its final index gives the live state and the episodes
      already written, and no stored morphology disagrees. */
  lemma ReplayEqualsLive<S>(env: Env<S>, log: seq<Meta>, n: nat)
    requires Written(env, log) && n <= |log|
    ensures ReplayLog(env, EntriesOf(log), log[..n]) == Ok(Live(env, log[..n]))
    ensures ReplayEpisodes(env, EntriesOf(log), log[..n]) == LiveEpisodes(env, log[..n])
  {
    hide *;
    PrefixReplays(env, log, n);
    ReplaysToMeans(env, EntriesOf(log), log[..n]);
  }

  lemma WholeLog(log: seq<Meta>)
    ensures log[..|log|] == log
  {
  }

  lemma OneLonger(log: seq<Meta>, n: nat)
    requires n < |log|
    ensures log[..n + 1] == log[..n] + [log[n]]
  {
  }

  lemma NothingToReplay<S>(env: Env<S>, entries: Entries, none: seq<Meta>)
    requires none == []
    ensures ReplaysTo(env, entries, none)
    ensures ReplayLog(env, entries, none) == Ok(NothingDerived()) && ReplayEpisodes(env, entries, none) == {}
  {
  }

  lemma ReplaySteps<S>(env: Env<S>, entries: Entries, log: seq<Meta>, n: nat)
    requires n < |log| && ReplayLog(env, entries, log[..n]).Ok?
    ensures var d := ReplayLog(env, entries, log[..n]).value;
      && ReplayLog(env, entries, log[..n + 1]) == Absorb(env, entries, d, log[n])
      && ReplayEpisodes(env, entries, log[..n + 1])
           == ReplayEpisodes(env, entries, log[..n]) + ClosedBy(env, entries, d, log[n], RootOf(entries, log[n].entryId))
  {
    hide Absorb, ClosedBy, RootOf;
    assert log[..n + 1][..n] == log[..n];
  }

  lemma WrittenIsOrdered<S>(env: Env<S>, log: seq<Meta>)
    requires Written(env, log)
    ensures Lists(log, EntriesOf(log)) && Ordered(log, InAdmissionOrder())
  {
    WrittenIsNumbered(env, log);
    LogIsListed(log);
  }

  /** A restart sees the metadata objects in any order; sorted by admission they are the log again, and replaying
      them recovers the live state. */
  lemma RebuildRecovers<S>(env: Env<S>, log: seq<Meta>, listing: seq<Meta>, order: seq<Meta>)
    requires Written(env, log) && multiset(listing) == multiset(log)
    requires Lists(order, EntriesOf(listing)) && Ordered(order, InAdmissionOrder())
    ensures DistinctIds(listing) && EntriesOf(listing) == EntriesOf(log) && order == log
    ensures ReplayLog(env, EntriesOf(listing), order) == Ok(Live(env, log))
    ensures ReplayEpisodes(env, EntriesOf(listing), order) == LiveEpisodes(env, log)
  {
    hide *;
    WrittenIsOrdered(env, log);
    PermutationLists(log, listing, EntriesOf(log));
    ListingsFix(listing, EntriesOf(log));
    AdmissionOrderIsUnique(order, log, EntriesOf(log));
    ReplayEqualsLive(env, log, |log|);
    WholeLog(log);
  }

  /** The entries are determined by any list of them. */
  lemma ListingsFix(log: seq<Meta>, entries: Entries)
    requires Lists(log, entries)
    ensures DistinctIds(log) && EntriesOf(log) == entries
  {
    LogIsListed(log);
    forall id ensures id in EntriesOf(log) <==> id in entries {
      if id in entries { assert entries[id] in log && Filed(entries[id], EntriesOf(log)); }
      if id in EntriesOf(log) { assert EntriesOf(log)[id] in log && Filed(EntriesOf(log)[id], entries); }
    }
    forall id | id in entries ensures EntriesOf(log)[id] == entries[id] {
      assert entries[id] in log && Filed(entries[id], EntriesOf(log));
    }
  }

  // ---- Consequences ----

  /** The next admission number is the number of admissions. */
  lemma LiveCounts<S>(env: Env<S>, log: seq<Meta>)
    requires Written(env, log)
    ensures Live(env, log).admissionSeq == if |log| < TWO_64 then |log| else TWO_64 - 1
  {
    if log != [] {
      LiveCounts(env, log[..|log| - 1]);
    }
  }

  /** What admitting a seed or an edge does to the written log and to the state. */
  lemma AdmissionExtends<S>(env: Env<S>, log: seq<Meta>, meta: Meta)
    requires Written(env, log) && Admissible(env, log, meta)
    ensures Written(env, log + [meta]) && EntriesOf(log + [meta]) == EntriesOf(log)[meta.entryId := meta]
    ensures Live(env, log + [meta]) == Admitted(env, log, meta)
    ensures LiveEpisodes(env, log + [meta]) == LiveEpisodes(env, log)
      + ClosedBy(env, EntriesOf(log), Live(env, log), meta, ParentRoot(EntriesOf(log), meta))
  {
    assert (log + [meta])[..|log|] == log;
    hide Admissible, Admitted, ClosedBy;
  }

  /** How far an entry is from its seed. */
  ghost function Depth(entries: Entries, id: Id): nat
    requires Grounded(entries) && id in entries
    decreases entries[id].admissionSeq
  {
    if entries[id].parentId.None? then 0 else 1 + Depth(entries, entries[id].parentId.value)
  }

  /** The recorded generation is the distance to the seed, modulo 2^32. */
  lemma {:induction false} GenerationIsDepth<S>(env: Env<S>, log: seq<Meta>, id: Id)
    requires Written(env, log) && Grounded(EntriesOf(log)) && id in EntriesOf(log)
    ensures EntriesOf(log)[id].generation == Depth(EntriesOf(log), id) % 0x1_0000_0000
    decreases EntriesOf(log)[id].admissionSeq
  {
    hide Written, EntriesOf, Depth;
    var entries := EntriesOf(log);
    GenerationStep(env, log, id);
    DepthStep(entries, id);
    if entries[id].parentId.Some? {
      GenerationIsDepth(env, log, entries[id].parentId.value);
    }
  }

  /** In the final index a generation is still one more than the parent's. */
  lemma GenerationStep<S>(env: Env<S>, log: seq<Meta>, id: Id)
    requires Written(env, log) && id in EntriesOf(log)
    ensures var meta := EntriesOf(log)[id];
      && (meta.parentId.Some? ==> meta.parentId.value in EntriesOf(log))
      && meta.generation == if meta.parentId.None? then 0
                            else NextGeneration(EntriesOf(log)[meta.parentId.value].generation)
  {
    WrittenIsNumbered(env, log);
    LogIsListed(log);
    var meta := EntriesOf(log)[id];
    var n :| 0 <= n < |log| && log[n] == meta;
    hide EntriesOf, Written, Grounded, Lists, DistinctIds, RootOf;
    WrittenPrefix(env, log, n);
    if meta.parentId.Some? {
      RootIsStable(env, log, n);
    }
    AdmissibleMeans(env, log[..n], meta);
  }

  lemma DepthStep(entries: Entries, id: Id)
    requires Grounded(entries) && id in entries
    ensures Depth(entries, id) == if entries[id].parentId.None? then 0 else 1 + Depth(entries, entries[id].parentId.value)
    ensures entries[id].parentId.Some? ==>
      Depth(entries, id) % 0x1_0000_0000
        == NextGeneration(Depth(entries, entries[id].parentId.value) % 0x1_0000_0000)
  {
    if entries[id].parentId.Some? {
      NextIsModular(Depth(entries, entries[id].parentId.value));
    }
  }

  lemma NextIsModular(d: nat)
    ensures (1 + d) % 0x1_0000_0000 == NextGeneration(d % 0x1_0000_0000)
  {
  }

  // ---- Tampering ----

  /** Two indexes that differ in nothing replay reads from the index: parents and observations. */
  ghost predicate Alike(a: Entries, b: Entries) {
    && a.Keys == b.Keys
    && forall id | id in a :: a[id].parentId == b[id].parentId && a[id].signals == b[id].signals
  }

  lemma {:induction false} AlikeWalks(a: Entries, b: Entries, id: Id, steps: nat)
    requires Alike(a, b)
    ensures Walk(a, id, steps) == Walk(b, id, steps)
    decreases steps
  {
    if steps > 0 && id in a && a[id].parentId.Some? {
      AlikeWalks(a, b, a[id].parentId.value, steps - 1);
    }
  }

  lemma AlikeAbsorbs<S>(env: Env<S>, a: Entries, b: Entries, d: Derived<S>, meta: Meta)
    requires Alike(a, b)
    ensures Absorb(env, a, d, meta) == Absorb(env, b, d, meta)
  {
    hide AdvanceLineage, FeedRoot, Walk;
    assert |a| == |a.Keys| == |b.Keys| == |b|;
    AlikeWalks(a, b, meta.entryId, |a| + 1);
  }

  lemma {:induction false} AlikeReplays<S>(env: Env<S>, a: Entries, b: Entries, log: seq<Meta>)
    requires Alike(a, b)
    ensures ReplayLog(env, a, log) == ReplayLog(env, b, log)
  {
    if log != [] {
      var before := log[..|log| - 1];
      AlikeReplays(env, a, b, before);
      hide Absorb, Alike;
      var r := ReplayLog(env, a, before);
      if r.Ok? {
        AlikeAbsorbs(env, a, b, r.value, log[|log| - 1]);
      }
    }
  }

  /** Once the replay of a prefix fails, the whole replay fails the same way. */
  lemma {:induction false} ReplayFails<S>(env: Env<S>, entries: Entries, log: seq<Meta>, n: nat)
    requires n <= |log| && ReplayLog(env, entries, log[..n]).Err?
    ensures ReplayLog(env, entries, log) == ReplayLog(env, entries, log[..n])
    decreases |log|
  {
    hide Absorb;
    if n == |log| {
      assert log[..n] == log;
    } else {
      var before := log[..|log| - 1];
      assert before[..n] == log[..n];
      ReplayFails(env, entries, before, n);
    }
  }

  lemma {:induction false} TamperedEntries(log: seq<Meta>, n: nat, meta: Meta)
    requires n < |log| && meta.entryId == log[n].entryId
    requires meta.parentId == log[n].parentId && meta.signals == log[n].signals
    ensures Alike(EntriesOf(log), EntriesOf(log[n := meta]))
  {
    var tampered, last := log[n := meta], |log| - 1;
    if n < last {
      TamperedEntries(log[..last], n, meta);
      assert tampered[..last] == log[..last][n := meta];
    } else {
      assert tampered[..last] == log[..last];
    }
  }

  /** A stored morphology that was altered is always found out: the replay fails at that entry. */
  lemma TamperedMorphologyIsFound<S>(env: Env<S>, log: seq<Meta>, n: nat, other: Id)
    requires Written(env, log) && n < |log| && log[n].mutatorId.Some?
    requires log[n].morphologyId.Some? && other != log[n].morphologyId.value
    ensures var tampered := log[n := log[n].(morphologyId := Some(other))];
      ReplayLog(env, EntriesOf(tampered), tampered) == Err(MorphologyDisagrees)
  {
    hide *;
    var meta := log[n].(morphologyId := Some(other));
    var tampered := log[n := meta];
    var a, b := EntriesOf(log), EntriesOf(tampered);
    TamperedEntries(log, n, meta);
    ReplayEqualsLive(env, log, n);
    AlikeReplays(env, a, b, log[..n]);
    assert tampered[..n] == log[..n];
    AbsorbIsStable(env, log, n);
    AlikeAbsorbs(env, a, b, Live(env, log[..n]), log[n]);
    AbsorbRefuses(env, b, Live(env, log[..n]), log[n], other);
    ReplaySteps(env, b, tampered, n);
    ReplayFails(env, b, tampered, n + 1);
  }

  lemma AbsorbRefuses<S>(env: Env<S>, entries: Entries, d: Derived<S>, meta: Meta, other: Id)
    requires meta.mutatorId.Some? && meta.morphologyId.Some? && other != meta.morphologyId.value
    requires Absorb(env, entries, d, meta).Ok?
    ensures Absorb(env, entries, d, meta.(morphologyId := Some(other))) == Err(MorphologyDisagrees)
  {
    hide AdvanceLineage, FeedRoot, Walk;
  }
}
