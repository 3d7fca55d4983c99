/**
 What the derived state of a campaign means, read off the admitted entries alone: which samples every regime observer has
 seen, which episodes have closed, and what each lineage and each root has accumulated.
 */
module DerivedState {
  import opened Wrappers
  import opened Words
  import opened Signals
  import opened Morphology
  import opened MorphologyHistory
  import opened Corpus
  import opened Replay
  import Regime

  // ---- Reading the entries ----

  /** The lineage an entry belongs to: the seed at the end of its parent chain, and its mutator. Seeds have none. */
  function KeyOf(entries: Entries, meta: Meta): Option<Key> {
    if meta.mutatorId.None? || RootOf(entries, meta.entryId).None? then None
    else Some((RootOf(entries, meta.entryId).value, meta.mutatorId.value))
  }

  /** The entries of one lineage, in admission order. */
  function Mine(entries: Entries, list: seq<Meta>, key: Key): seq<Meta> {
    if list == [] then []
    else
      var before, last := list[..|list| - 1], list[|list| - 1];
      Mine(entries, before, key) + if KeyOf(entries, last) == Some(key) then [last] else []
  }

  /** What an entry's parent reads on a signal. */
  function ParentReading(entries: Entries, meta: Meta, i: Axis): u64 {
    if meta.parentId.Some? && meta.parentId.value in entries then Reading(entries[meta.parentId.value].signals, i) else 0
  }

  predicate Moved(entries: Entries, meta: Meta, i: Axis) {
    Reading(meta.signals, i) != ParentReading(entries, meta, i)
  }

  /** A count, saturating at 64 bits. */
  function Nth(k: nat): u64 {
    if k > 0xFFFF_FFFF_FFFF_FFFF then 0xFFFF_FFFF_FFFF_FFFF else k
  }

  /** The k-th entry of a lineage is a sample of signal i when its reading differs from its parent's: the value the entry
      itself recorded, with k as the ordinal. */
  function Samples(entries: Entries, mine: seq<Meta>, i: Axis): seq<Regime.Sample> {
    if mine == [] then []
    else
      var last := mine[|mine| - 1];
      Samples(entries, mine[..|mine| - 1], i)
      + if Moved(entries, last, i) then [Regime.Sample(Nth(|mine|), last.signals.values[i])] else []
  }

  // ---- One admission ----

  lemma EdgeMoves(entries: Entries, meta: Meta, i: Axis)
    ensures EdgeOf(entries, meta).Delta(i) != 0 <==> Moved(entries, meta, i)
    ensures EdgeOf(entries, meta).child == meta.signals
  {
    DeltaSign(EdgeOf(entries, meta), i);
  }

  /** What feeding the moved axes does to one of them. */
  lemma {:induction false} FeedOne(cfg: Regime.Config, observers: map<Axis, Regime.Snapshot>, ordinal: u64, edge: Residual,
                                   n: nat, i: Axis)
    requires n <= AXES
    ensures var (fed, closed) := FeedObservers(cfg, observers, ordinal, edge, n);
      var (o, episode) := Regime.Step(cfg, ObserverAt(observers, i), ordinal, edge.child.values[i]);
      if i < n && edge.Delta(i) != 0 then
        && i in fed && fed[i] == o
        && (forall e :: (i, e) in closed <==> episode == Some(e))
        && (episode.Some? ==> (i, episode.value) in closed)
      else
        && (i in fed <==> i in observers) && ObserverAt(fed, i) == ObserverAt(observers, i)
        && forall e :: (i, e) !in closed
  {
    hide Regime.Step, Difference;
    if n > 0 {
      FeedOne(cfg, observers, ordinal, edge, n - 1, i);
    }
  }

  /** Absorbing an entry advances its own lineage and no other. */
  lemma AbsorbAdvances<S>(env: Env<S>, all: Entries, d: Derived<S>, meta: Meta)
    requires Absorb(env, all, d, meta).Ok?
    ensures var d', root := Absorb(env, all, d, meta).value, RootOf(all, meta.entryId);
      match KeyOf(all, meta)
      case None => d'.lineages == d.lineages && ClosedBy(env, all, d, meta, root) == {}
      case Some(key) =>
        && meta.mutatorId.Some? && root == Some(key.0)
        && d'.lineages == d.lineages[key := AdvanceOf(env, all, d, meta, key.0).lineage]
        && ClosedBy(env, all, d, meta, root) == set c | c in AdvanceOf(env, all, d, meta, key.0).closed
  {
    hide AdvanceOf, RootOf, StateBuckets, Moves;
  }

  lemma AdvanceFeeds<S>(env: Env<S>, all: Entries, d: Derived<S>, meta: Meta, root: Id)
    requires meta.mutatorId.Some?
    ensures var key := (root, meta.mutatorId.value);
      var a, ls := AdvanceOf(env, all, d, meta, root), LineageAt(all, d.lineages, key);
      && (a.lineage.observers, a.closed)
           == FeedObservers(env.regime, ls.observers, SaturatingInc(ls.ordinal), EdgeOf(all, meta), AXES)
      && a.lineage.ordinal == SaturatingInc(ls.ordinal) && a.lineage.frontier == Some(meta.entryId)
      && a.lineage.acc == PushState(ls.acc, EdgeOf(all, meta))
      && a.sig == SignatureOf(a.lineage.acc, EdgeOf(all, meta), meta.generation)
      && a.lineage.history == Remember(ls.history, meta.generation, a.sig)
  {
    hide FeedObservers, PushState, SignatureOf, LineageAt, EdgeOf, Remember;
  }

  // ---- Observers ----

  function Observers<S>(d: Derived<S>, key: Key): map<Axis, Regime.Snapshot> {
    if key in d.lineages then d.lineages[key].observers else map[]
  }

  /** The lineage's counters and observers are what its entries say. */
  ghost predicate Observes<S>(env: Env<S>, all: Entries, list: seq<Meta>, d: Derived<S>, key: Key, i: Axis) {
    var mine := Mine(all, list, key);
    var s := Samples(all, mine, i);
    && (key in d.lineages <==> mine != [])
    && (key in d.lineages ==> d.lineages[key].ordinal == Nth(|mine|))
    && (i in Observers(d, key) <==> s != [])
    && ObserverAt(Observers(d, key), i) == Regime.Run(env.regime, Regime.FRESH, s).0
  }

  lemma MineAppends(all: Entries, list: seq<Meta>, meta: Meta, key: Key)
    ensures Mine(all, list + [meta], key) == Mine(all, list, key) + if KeyOf(all, meta) == Some(key) then [meta] else []
  {
    assert (list + [meta])[..|list|] == list;
  }

  lemma SamplesAppend(all: Entries, mine: seq<Meta>, meta: Meta, i: Axis)
    ensures Samples(all, mine + [meta], i) == Samples(all, mine, i)
      + if Moved(all, meta, i) then [Regime.Sample(Nth(|mine| + 1), meta.signals.values[i])] else []
  {
    assert (mine + [meta])[..|mine|] == mine;
  }

  lemma RunAppends(cfg: Regime.Config, s: seq<Regime.Sample>, x: Regime.Sample)
    ensures var (o, eps) := Regime.Run(cfg, Regime.FRESH, s);
      var (o', closed) := Regime.Step(cfg, o, x.ordinal, x.value);
      Regime.Run(cfg, Regime.FRESH, s + [x]) == (o', if closed.Some? then eps + [closed.value] else eps)
  {
    hide Regime.Step;
    assert (s + [x])[..|s|] == s;
  }

  /** The episodes a lineage has closed on a signal, in order. */
  function EpisodesOf<S>(env: Env<S>, all: Entries, list: seq<Meta>, key: Key, i: Axis): seq<Regime.Episode> {
    Regime.Run(env.regime, Regime.FRESH, Samples(all, Mine(all, list, key), i)).1
  }

  /** One entry of the lineage: the observer of signal i, and the episode it closes there. */
  lemma OwnEntryObserved<S>(env: Env<S>, all: Entries, list: seq<Meta>, d: Derived<S>, meta: Meta, key: Key, i: Axis)
    requires Absorb(env, all, d, meta).Ok? && KeyOf(all, meta) == Some(key) && Observes(env, all, list, d, key, i)
    ensures Observes(env, all, list + [meta], Absorb(env, all, d, meta).value, key, i)
    ensures var a := AdvanceOf(env, all, d, meta, key.0).closed;
      && (forall e | (i, e) in a :: EpisodesOf(env, all, list + [meta], key, i) == EpisodesOf(env, all, list, key, i) + [e])
      && ((forall e :: (i, e) !in a) ==> EpisodesOf(env, all, list + [meta], key, i) == EpisodesOf(env, all, list, key, i))
  {
    hide Absorb, AdvanceOf, RootOf, FeedObservers, Regime.Run, Regime.Step, Samples, Mine, Moved, EdgeOf, Difference;
    var mine := Mine(all, list, key);
    var ls := LineageAt(all, d.lineages, key);
    AbsorbAdvances(env, all, d, meta);
    AdvanceFeeds(env, all, d, meta, key.0);
    EdgeMoves(all, meta, i);
    FeedOne(env.regime, ls.observers, SaturatingInc(ls.ordinal), EdgeOf(all, meta), AXES, i);
    MineAppends(all, list, meta, key);
    SamplesAppend(all, mine, meta, i);
    NothingSampled(all, i);
    assert Samples(all, mine, i) + [] == Samples(all, mine, i);
    RunAppends(env.regime, Samples(all, mine, i), Regime.Sample(Nth(|mine| + 1), meta.signals.values[i]));
    assert ObserverAt(ls.observers, i) == ObserverAt(Observers(d, key), i);
    assert SaturatingInc(ls.ordinal) == Nth(|mine| + 1);
  }

  lemma NothingSampled(all: Entries, i: Axis)
    ensures Samples(all, [], i) == []
  {
  }

  /** An entry of another lineage changes nothing for this one. */
  lemma OtherEntryObserved<S>(env: Env<S>, all: Entries, list: seq<Meta>, d: Derived<S>, meta: Meta, key: Key, i: Axis)
    requires Absorb(env, all, d, meta).Ok? && KeyOf(all, meta) != Some(key) && Observes(env, all, list, d, key, i)
    ensures Observes(env, all, list + [meta], Absorb(env, all, d, meta).value, key, i)
    ensures EpisodesOf(env, all, list + [meta], key, i) == EpisodesOf(env, all, list, key, i)
  {
    hide Absorb, AdvanceOf, RootOf, Regime.Run, Samples, Mine, EdgeOf;
    AbsorbAdvances(env, all, d, meta);
    MineAppends(all, list, meta, key);
    assert Mine(all, list, key) + [] == Mine(all, list, key);
  }

  lemma LiveAppends<S>(env: Env<S>, list: seq<Meta>, meta: Meta)
    ensures Live(env, list + [meta]) == Admitted(env, list, meta)
    ensures LiveEpisodes(env, list + [meta]) == LiveEpisodes(env, list)
      + ClosedBy(env, EntriesOf(list), Live(env, list), meta, ParentRoot(EntriesOf(list), meta))
  {
    hide Admitted, ClosedBy, EntriesOf, ParentRoot;
    assert (list + [meta])[..|list|] == list;
  }

  /** One more admission of a written log is one more absorption with the final index. */
  lemma LiveAbsorbs<S>(env: Env<S>, log: seq<Meta>, n: nat)
    requires Written(env, log) && n < |log|
    ensures var all, before, meta := EntriesOf(log), log[..n], log[n];
      && log[..n + 1] == before + [meta]
      && Absorb(env, all, Live(env, before), meta) == Ok(Live(env, before + [meta]))
      && LiveEpisodes(env, before + [meta])
           == LiveEpisodes(env, before) + ClosedBy(env, all, Live(env, before), meta, RootOf(all, meta.entryId))
  {
    hide *;
    AbsorbIsStable(env, log, n);
    LiveAppends(env, log[..n], log[n]);
    OneLonger(log, n);
  }

  lemma NothingObserved<S>(env: Env<S>, all: Entries, none: seq<Meta>, key: Key, i: Axis)
    requires none == []
    ensures Observes(env, all, none, NothingDerived(), key, i)
    ensures EpisodesOf(env, all, none, key, i) == [] && Live(env, none) == NothingDerived() && LiveEpisodes(env, none) == {}
  {
  }

  /** Main result for the observers: over any written log, the observer of a lineage and signal is a fresh one fed exactly
      the lineage's own samples of that signal, and it is there exactly when there are any. */
  lemma {:induction false} ObserversMeanSamples<S>(env: Env<S>, log: seq<Meta>, n: nat, key: Key, i: Axis)
    requires Written(env, log) && n <= |log|
    ensures Observes(env, EntriesOf(log), log[..n], Live(env, log[..n]), key, i)
  {
    hide *;
    if n == 0 {
      NothingObserved(env, EntriesOf(log), log[..n], key, i);
    } else {
      var all, before, meta := EntriesOf(log), log[..n - 1], log[n - 1];
      ObserversMeanSamples(env, log, n - 1, key, i);
      LiveAbsorbs(env, log, n - 1);
      if KeyOf(all, meta) == Some(key) {
        OwnEntryObserved(env, all, before, Live(env, before), meta, key, i);
      } else {
        OtherEntryObserved(env, all, before, Live(env, before), meta, key, i);
      }
    }
  }

  // ---- Episodes ----

  /** Some lineage has closed this episode on this signal. */
  ghost predicate SomeoneClosed<S>(env: Env<S>, all: Entries, list: seq<Meta>, i: Axis, e: Regime.Episode) {
    exists key: Key :: e in EpisodesOf(env, all, list, key, i)
  }

  lemma EpisodeStep<S>(env: Env<S>, all: Entries, list: seq<Meta>, d: Derived<S>, meta: Meta, i: Axis, e: Regime.Episode)
    requires Absorb(env, all, d, meta).Ok? && forall key: Key :: Observes(env, all, list, d, key, i)
    ensures SomeoneClosed(env, all, list + [meta], i, e) <==>
      SomeoneClosed(env, all, list, i, e) || (i, e) in ClosedBy(env, all, d, meta, RootOf(all, meta.entryId))
  {
    hide Absorb, AdvanceOf, RootOf, EpisodesOf, Observes, KeyOf, ClosedBy;
    var more, own := list + [meta], KeyOf(all, meta);
    forall key: Key | own != Some(key)
      ensures EpisodesOf(env, all, more, key, i) == EpisodesOf(env, all, list, key, i)
    {
      OtherEntryObserved(env, all, list, d, meta, key, i);
    }
    AbsorbAdvances(env, all, d, meta);
    if own.Some? {
      var key := own.value;
      OwnEntryObserved(env, all, list, d, meta, key, i);
      var a := AdvanceOf(env, all, d, meta, key.0).closed;
      if (exists x :: (i, x) in a) {
        var x :| (i, x) in a;
        assert EpisodesOf(env, all, more, key, i) == EpisodesOf(env, all, list, key, i) + [x];
        OneClosing(env, all, d, meta, key.0, i, x, e);
      }
      assert e in EpisodesOf(env, all, more, key, i) <==> e in EpisodesOf(env, all, list, key, i) || (i, e) in a;
    }
    assert forall key: Key :: e in EpisodesOf(env, all, more, key, i) <==>
      e in EpisodesOf(env, all, list, key, i)
      || (own == Some(key) && (i, e) in ClosedBy(env, all, d, meta, RootOf(all, meta.entryId)));
  }

  /** An admission closes at most one episode per signal. */
  lemma OneClosing<S>(env: Env<S>, all: Entries, d: Derived<S>, meta: Meta, root: Id, i: Axis, x: Regime.Episode, e: Regime.Episode)
    requires meta.mutatorId.Some? && (i, x) in AdvanceOf(env, all, d, meta, root).closed
    ensures (i, e) in AdvanceOf(env, all, d, meta, root).closed <==> e == x
  {
    hide AdvanceOf, FeedObservers, Regime.Step, EdgeOf, Difference;
    AdvanceFeeds(env, all, d, meta, root);
    var ls := LineageAt(all, d.lineages, (root, meta.mutatorId.value));
    FeedOne(env.regime, ls.observers, SaturatingInc(ls.ordinal), EdgeOf(all, meta), AXES, i);
  }

  /** Main result for the episodes: over any written log, the episodes stored are exactly those that the samples of the
      lineages close, tagged with their signal. */
  lemma {:induction false} EpisodesMeanSamples<S>(env: Env<S>, log: seq<Meta>, n: nat, i: Axis, e: Regime.Episode)
    requires Written(env, log) && n <= |log|
    ensures (i, e) in LiveEpisodes(env, log[..n]) <==> SomeoneClosed(env, EntriesOf(log), log[..n], i, e)
  {
    hide *;
    if n == 0 {
      NobodyClosed(env, EntriesOf(log), log[..n], i, e);
    } else {
      var all, before, meta := EntriesOf(log), log[..n - 1], log[n - 1];
      EpisodesMeanSamples(env, log, n - 1, i, e);
      LiveAbsorbs(env, log, n - 1);
      forall key: Key ensures Observes(env, all, before, Live(env, before), key, i) {
        ObserversMeanSamples(env, log, n - 1, key, i);
      }
      EpisodeStep(env, all, before, Live(env, before), meta, i, e);
    }
  }

  lemma NobodyClosed<S>(env: Env<S>, all: Entries, none: seq<Meta>, i: Axis, e: Regime.Episode)
    requires none == []
    ensures LiveEpisodes(env, none) == {} && !SomeoneClosed(env, all, none, i, e)
  {
  }
}
