/**
 What a campaign has accumulated per lineage, per root and over all entries, read off the admitted entries alone.
 */
module DerivedLineages {
  import opened Wrappers
  import opened Words
  import opened Signals
  import opened Morphology
  import opened MorphologyHistory
  import opened Corpus
  import opened Replay
  import opened DerivedState
  import Regime

  // ---- Lineages ----

  /** The differences between the entries of a list and their parents. */
  function Edges(all: Entries, list: seq<Meta>): (edges: seq<Residual>)
    ensures |edges| == |list|
  {
    if list == [] then [] else Edges(all, list[..|list| - 1]) + [EdgeOf(all, list[|list| - 1])]
  }

  /** The signature of the last of a lineage's entries. */
  function SignatureAt(all: Entries, root: Id, mine: seq<Meta>): Signature
    requires mine != [] && root in all
  {
    LineageSignature(all[root].signals, Edges(all, mine), mine[|mine| - 1].generation)
  }

  /** The signatures that report an axis, each with the depth it was read at. */
  function Shapes(all: Entries, root: Id, mine: seq<Meta>): seq<(u32, Signature)>
    requires root in all
  {
    if mine == [] then []
    else
      var sig := SignatureAt(all, root, mine);
      Shapes(all, root, mine[..|mine| - 1])
      + if sig.axisMask == {} then [] else [(mine[|mine| - 1].generation, sig)]
  }

  function LastEight<T>(s: seq<T>): seq<T> {
    if |s| > 8 then s[|s| - 8..] else s
  }

  /** A lineage's state: how many entries, which is the last, the shape accumulated from the root's observation on, and
      the last eight shapes that report an axis. */
  ghost predicate Accumulates<S>(all: Entries, list: seq<Meta>, d: Derived<S>, key: Key) {
    var mine := Mine(all, list, key);
    && (key in d.lineages <==> mine != [])
    && (mine != [] ==>
         && key.0 in all
         && var ls := d.lineages[key];
            && ls.ordinal == Nth(|mine|) && ls.frontier == Some(mine[|mine| - 1].entryId)
            && ls.acc == PushAll(WithBaseline(Fresh(), all[key.0].signals), Edges(all, mine))
            && ls.history == LastEight(Shapes(all, key.0, mine)))
  }

  lemma {:induction false} WalkStaysInside(entries: Entries, id: Id, steps: nat)
    ensures Walk(entries, id, steps).Some? ==> Walk(entries, id, steps).value in entries
    decreases steps
  {
    if steps > 0 && id in entries && entries[id].parentId.Some? {
      WalkStaysInside(entries, entries[id].parentId.value, steps - 1);
    }
  }

  lemma KeyHasRoot(all: Entries, meta: Meta)
    ensures KeyOf(all, meta).Some? ==> KeyOf(all, meta).value.0 in all
  {
    WalkStaysInside(all, meta.entryId, |all| + 1);
    hide Walk;
  }

  lemma EdgesAppend(all: Entries, mine: seq<Meta>, meta: Meta)
    ensures Edges(all, mine + [meta]) == Edges(all, mine) + [EdgeOf(all, meta)]
    ensures Edges(all, []) == []
  {
    hide EdgeOf;
    assert (mine + [meta])[..|mine|] == mine;
  }

  lemma PushAppends(acc: Accumulator, edges: seq<Residual>, edge: Residual)
    ensures PushAll(acc, edges + [edge]) == PushState(PushAll(acc, edges), edge) && PushAll(acc, []) == acc
  {
    hide PushState;
    assert (edges + [edge])[..|edges|] == edges;
  }

  lemma ShapesAppend(all: Entries, root: Id, mine: seq<Meta>, meta: Meta)
    requires root in all
    ensures var sig := SignatureAt(all, root, mine + [meta]);
      Shapes(all, root, mine + [meta]) == Shapes(all, root, mine)
        + if sig.axisMask == {} then [] else [(meta.generation, sig)]
    ensures Shapes(all, root, []) == []
  {
    hide SignatureAt;
    assert (mine + [meta])[..|mine|] == mine;
  }

  /** Keeping eight is remembering one after the other. */
  lemma RememberKeepsEight(shapes: seq<(u32, Signature)>, depth: u32, sig: Signature)
    ensures Remember(LastEight(shapes), depth, sig)
         == LastEight(shapes + if sig.axisMask == {} then [] else [(depth, sig)])
  {
    if sig.axisMask == {} {
      assert shapes + [] == shapes;
    } else if |shapes| > 8 {
      var more := shapes + [(depth, sig)];
      assert (shapes[|shapes| - 8..] + [(depth, sig)])[1..] == more[|more| - 8..];
    }
  }

  /** What the lineage starts from when its first entry comes. */
  lemma StartsFromRoot(all: Entries, lineages: map<Key, LineageState>, key: Key)
    requires key !in lineages && key.0 in all
    ensures LineageAt(all, lineages, key) == LineageState(WithBaseline(Fresh(), all[key.0].signals), map[], [], None, 0)
  {
  }

  /** The signature an own entry is given, and the lineage after it. */
  lemma OwnEntryAccumulates<S>(env: Env<S>, all: Entries, list: seq<Meta>, d: Derived<S>, meta: Meta, key: Key)
    requires Absorb(env, all, d, meta).Ok? && KeyOf(all, meta) == Some(key) && Accumulates(all, list, d, key)
    ensures Accumulates(all, list + [meta], Absorb(env, all, d, meta).value, key)
    ensures key.0 in all && meta.mutatorId.Some?
    ensures AdvanceOf(env, all, d, meta, key.0).sig == SignatureAt(all, key.0, Mine(all, list, key) + [meta])
  {
    hide Absorb, AdvanceOf, RootOf, PushAll, PushState, SignatureOf, EdgeOf, Edges, Mine, Shapes, Remember, LastEight,
      LineageAt, WithBaseline;
    var mine := Mine(all, list, key);
    var ls, edge := LineageAt(all, d.lineages, key), EdgeOf(all, meta);
    KeyHasRoot(all, meta);
    AbsorbAdvances(env, all, d, meta);
    AdvanceFeeds(env, all, d, meta, key.0);
    MineAppends(all, list, meta, key);
    EdgesAppend(all, mine, meta);
    ShapesAppend(all, key.0, mine, meta);
    var root := all[key.0].signals;
    PushAppends(WithBaseline(Fresh(), root), Edges(all, mine), edge);
    SignatureHere(all, key.0, mine, meta);
    RememberKeepsEight(Shapes(all, key.0, mine), meta.generation, SignatureAt(all, key.0, mine + [meta]));
    if mine == [] {
      StartsFromRoot(all, d.lineages, key);
      NothingToKeep();
    } else {
      StartsFromItself(all, d.lineages, key);
    }
  }

  lemma NothingToKeep()
    ensures LastEight<(u32, Signature)>([]) == []
  {
  }

  lemma StartsFromItself(all: Entries, lineages: map<Key, LineageState>, key: Key)
    requires key in lineages
    ensures LineageAt(all, lineages, key) == lineages[key]
  {
  }

  lemma SignatureHere(all: Entries, root: Id, mine: seq<Meta>, meta: Meta)
    requires root in all
    ensures SignatureAt(all, root, mine + [meta])
         == SignatureOf(PushAll(WithBaseline(Fresh(), all[root].signals), Edges(all, mine + [meta])), EdgeOf(all, meta),
                        meta.generation)
  {
    hide PushAll, SignatureOf, EdgeOf;
    EdgesAppend(all, mine, meta);
  }

  lemma OtherEntryAccumulates<S>(env: Env<S>, all: Entries, list: seq<Meta>, d: Derived<S>, meta: Meta, key: Key)
    requires Absorb(env, all, d, meta).Ok? && KeyOf(all, meta) != Some(key) && Accumulates(all, list, d, key)
    ensures Accumulates(all, list + [meta], Absorb(env, all, d, meta).value, key)
  {
    hide Absorb, AdvanceOf, RootOf, PushAll, Edges, Mine, Shapes, LastEight;
    AbsorbAdvances(env, all, d, meta);
    MineAppends(all, list, meta, key);
    assert Mine(all, list, key) + [] == Mine(all, list, key);
  }

  lemma NothingAccumulated<S>(all: Entries, none: seq<Meta>, key: Key)
    requires none == []
    ensures Accumulates<S>(all, none, NothingDerived(), key)
  {
  }

  /** Main result for the lineages. */
  lemma {:induction false} LineagesMeanEntries<S>(env: Env<S>, log: seq<Meta>, n: nat, key: Key)
    requires Written(env, log) && n <= |log|
    ensures Accumulates(EntriesOf(log), log[..n], Live(env, log[..n]), key)
  {
    hide *;
    if n == 0 {
      NothingAccumulated<S>(EntriesOf(log), log[..n], key);
      NothingLive(env, log[..n]);
    } else {
      var all, before, meta := EntriesOf(log), log[..n - 1], log[n - 1];
      LineagesMeanEntries(env, log, n - 1, key);
      LiveAbsorbs(env, log, n - 1);
      if KeyOf(all, meta) == Some(key) {
        OwnEntryAccumulates(env, all, before, Live(env, before), meta, key);
      } else {
        OtherEntryAccumulates(env, all, before, Live(env, before), meta, key);
      }
    }
  }

  lemma NothingLive<S>(env: Env<S>, none: seq<Meta>)
    requires none == []
    ensures Live(env, none) == NothingDerived()
  {
  }

  // ---- Roots ----

  /** The entries below one seed, in admission order. */
  function Under(all: Entries, list: seq<Meta>, root: Id): seq<Meta> {
    if list == [] then []
    else
      var key := KeyOf(all, list[|list| - 1]);
      Under(all, list[..|list| - 1], root) + if key.Some? && key.value.0 == root then [list[|list| - 1]] else []
  }

  predicate MovesAny(all: Entries, meta: Meta) {
    exists i: Axis :: i < AXES && Moved(all, meta, i)
  }

  /** From the first entry that moves any signal on. */
  function FromFirstMove(all: Entries, under: seq<Meta>): seq<Meta> {
    if under == [] then []
    else
      var before, last := FromFirstMove(all, under[..|under| - 1]), under[|under| - 1];
      if before == [] && !MovesAny(all, last) then [] else before + [last]
  }

  /** A new substrate, fed the entries with their place as ordinal, modulo 2^64. */
  function Substrate<S>(env: Env<S>, all: Entries, root: Id, fed: seq<Meta>): S {
    if fed == [] then env.newSubstrate(root)
    else
      var last := fed[|fed| - 1];
      env.feedSubstrate(Substrate(env, all, root, fed[..|fed| - 1]), |fed| % 0x1_0000_0000_0000_0000, EdgeOf(all, last),
                        last.generation)
  }

  ghost predicate Feeds<S>(env: Env<S>, all: Entries, list: seq<Meta>, d: Derived<S>, root: Id) {
    var fed := FromFirstMove(all, Under(all, list, root));
    && (root in d.rootDsfb <==> fed != []) && (root in d.rootOrdinals <==> fed != [])
    && (fed != [] ==>
         d.rootOrdinals[root] == |fed| % 0x1_0000_0000_0000_0000 && d.rootDsfb[root] == Substrate(env, all, root, fed))
  }

  /** What absorbing an entry does beside advancing its lineage. */
  lemma AbsorbBeside<S>(env: Env<S>, all: Entries, d: Derived<S>, meta: Meta)
    requires Absorb(env, all, d, meta).Ok?
    ensures var d' := Absorb(env, all, d, meta).value;
      d'.stateFeatures == d.stateFeatures + StateBuckets(meta.signals)
    ensures var d', key := Absorb(env, all, d, meta).value, KeyOf(all, meta);
      match key
      case None =>
        && d'.morphIdentities == d.morphIdentities && d'.closedEpisodes == d.closedEpisodes
        && d'.rootDsfb == d.rootDsfb && d'.rootOrdinals == d.rootOrdinals
      case Some(k) =>
        && meta.mutatorId.Some?
        && d'.morphIdentities == d.morphIdentities + {env.identity(AdvanceOf(env, all, d, meta, k.0).sig)}
        && d'.closedEpisodes == CountClosed(d.closedEpisodes, |AdvanceOf(env, all, d, meta, k.0).closed|)
        && var fed := FeedRoot(env, d, k.0, EdgeOf(all, meta), meta.generation);
           d'.rootDsfb == fed.rootDsfb && d'.rootOrdinals == fed.rootOrdinals
  {
    hide AdvanceOf, RootOf, StateBuckets, Moves, EdgeOf;
  }

  lemma MovesMeans(all: Entries, meta: Meta)
    ensures Moves(EdgeOf(all, meta)) <==> MovesAny(all, meta)
  {
    hide EdgeOf, Difference, Moved;
    forall i: Axis {
      EdgeMoves(all, meta, i);
    }
  }

  lemma UnderAppends(all: Entries, list: seq<Meta>, meta: Meta, root: Id)
    ensures var key := KeyOf(all, meta);
      Under(all, list + [meta], root)
        == Under(all, list, root) + if key.Some? && key.value.0 == root then [meta] else []
  {
    hide KeyOf;
    assert (list + [meta])[..|list|] == list;
  }

  lemma FedAppends(all: Entries, under: seq<Meta>, meta: Meta)
    ensures var before := FromFirstMove(all, under);
      FromFirstMove(all, under + [meta]) == if before == [] && !MovesAny(all, meta) then [] else before + [meta]
  {
    hide MovesAny;
    assert (under + [meta])[..|under|] == under;
  }

  lemma SubstrateAppends<S>(env: Env<S>, all: Entries, root: Id, fed: seq<Meta>, meta: Meta)
    ensures Substrate(env, all, root, fed + [meta])
         == env.feedSubstrate(Substrate(env, all, root, fed), (|fed| + 1) % 0x1_0000_0000_0000_0000, EdgeOf(all, meta), meta.generation)
    ensures Substrate(env, all, root, []) == env.newSubstrate(root)
  {
    hide EdgeOf;
    assert (fed + [meta])[..|fed|] == fed;
  }

  lemma WrapsAt64(n: nat)
    ensures WrappingInc(n % 0x1_0000_0000_0000_0000) == (n + 1) % 0x1_0000_0000_0000_0000
  {
  }

  lemma EntryFeeds<S>(env: Env<S>, all: Entries, list: seq<Meta>, d: Derived<S>, meta: Meta, root: Id)
    requires Absorb(env, all, d, meta).Ok? && Feeds(env, all, list, d, root)
    ensures Feeds(env, all, list + [meta], Absorb(env, all, d, meta).value, root)
  {
    hide Absorb, AdvanceOf, KeyOf, Under, FromFirstMove, Substrate, EdgeOf, Moves, MovesAny, StateBuckets, WrappingInc;
    var under := Under(all, list, root);
    var fed := FromFirstMove(all, under);
    AbsorbBeside(env, all, d, meta);
    UnderAppends(all, list, meta, root);
    FedAppends(all, under, meta);
    MovesMeans(all, meta);
    SubstrateAppends(env, all, root, fed, meta);
    WrapsAt64(|fed|);
    assert under + [] == under;
  }

  /** Main result for the roots: the substrate of a seed is there exactly when some entry below it moves a signal, and has
      been fed every entry from the first such one on, under consecutive ordinals. */
  lemma {:induction false} RootsMeanEntries<S>(env: Env<S>, log: seq<Meta>, n: nat, root: Id)
    requires Written(env, log) && n <= |log|
    ensures Feeds(env, EntriesOf(log), log[..n], Live(env, log[..n]), root)
  {
    hide *;
    if n == 0 {
      NothingFed(env, EntriesOf(log), log[..n], root);
      NothingLive(env, log[..n]);
    } else {
      RootsMeanEntries(env, log, n - 1, root);
      LiveAbsorbs(env, log, n - 1);
      EntryFeeds(env, EntriesOf(log), log[..n - 1], Live(env, log[..n - 1]), log[n - 1], root);
    }
  }

  lemma NothingFed<S>(env: Env<S>, all: Entries, none: seq<Meta>, root: Id)
    requires none == []
    ensures Feeds(env, all, none, NothingDerived(), root)
  {
  }

  // ---- Novelty ----

  /** Some entry recorded the signal in the bucket. */
  ghost predicate Recorded(list: seq<Meta>, i: Axis, bucket: u8) {
    exists m :: m in list && i in m.signals.touched && bucket == ValueBucket(m.signals.values[i])
  }

  /** Some entry of some lineage had a shape of this identity. */
  ghost predicate Shaped<S>(env: Env<S>, all: Entries, list: seq<Meta>, identity: u64) {
    exists key: Key, n: nat :: HasShape(env, all, Mine(all, list, key), key.0, n, identity)
  }

  ghost predicate HasShape<S>(env: Env<S>, all: Entries, mine: seq<Meta>, root: Id, n: nat, identity: u64) {
    0 < n <= |mine| && root in all && env.identity(SignatureAt(all, root, mine[..n])) == identity
  }

  lemma {:induction false} StateFeaturesMeanEntries<S>(env: Env<S>, log: seq<Meta>, n: nat, i: Axis, bucket: u8)
    requires Written(env, log) && n <= |log|
    ensures (i, bucket) in Live(env, log[..n]).stateFeatures <==> Recorded(log[..n], i, bucket)
  {
    hide *;
    if n == 0 {
      NothingLive(env, log[..n]);
      NothingNoted<S>(log[..n], i, bucket);
    } else {
      var before, meta := log[..n - 1], log[n - 1];
      StateFeaturesMeanEntries(env, log, n - 1, i, bucket);
      LiveAbsorbs(env, log, n - 1);
      AbsorbBeside(env, EntriesOf(log), Live(env, before), meta);
      RecordedAppends(before, meta, i, bucket);
    }
  }

  lemma NothingNoted<S>(none: seq<Meta>, i: Axis, bucket: u8)
    requires none == []
    ensures NothingDerived<S>().stateFeatures == {} && !Recorded(none, i, bucket)
  {
  }

  lemma RecordedAppends(list: seq<Meta>, meta: Meta, i: Axis, bucket: u8)
    ensures Recorded(list + [meta], i, bucket) <==> Recorded(list, i, bucket) || (i, bucket) in StateBuckets(meta.signals)
  {
    hide ValueBucket;
    assert forall m :: m in list + [meta] <==> m in list || m == meta;
    if Recorded(list, i, bucket) {
      var m :| m in list && i in m.signals.touched && bucket == ValueBucket(m.signals.values[i]);
      assert m in list + [meta];
    }
    if (i, bucket) in StateBuckets(meta.signals) {
      assert meta in list + [meta];
    }
  }

  lemma ShapedAppends<S>(env: Env<S>, all: Entries, list: seq<Meta>, meta: Meta, identity: u64)
    ensures Shaped(env, all, list + [meta], identity) <==>
      || Shaped(env, all, list, identity)
      || (KeyOf(all, meta).Some? && var key := KeyOf(all, meta).value;
          var mine := Mine(all, list, key) + [meta];
          HasShape(env, all, mine, key.0, |mine|, identity))
  {
    hide SignatureAt, Mine, KeyOf;
    var more := list + [meta];
    forall key: Key ensures Mine(all, more, key) == Mine(all, list, key) + if KeyOf(all, meta) == Some(key) then [meta] else [] {
      MineAppends(all, list, meta, key);
    }
    forall key: Key, n: nat | HasShape(env, all, Mine(all, list, key), key.0, n, identity)
      ensures HasShape(env, all, Mine(all, more, key), key.0, n, identity)
    {
      assert Mine(all, more, key)[..n] == Mine(all, list, key)[..n];
    }
    forall key: Key, n: nat | HasShape(env, all, Mine(all, more, key), key.0, n, identity) && n <= |Mine(all, list, key)|
      ensures HasShape(env, all, Mine(all, list, key), key.0, n, identity)
    {
      assert Mine(all, more, key)[..n] == Mine(all, list, key)[..n];
    }
  }

  /** Main result for the shapes known: exactly those some entry of some lineage had when it was admitted. */
  lemma {:induction false} IdentitiesMeanEntries<S>(env: Env<S>, log: seq<Meta>, n: nat, identity: u64)
    requires Written(env, log) && n <= |log|
    ensures identity in Live(env, log[..n]).morphIdentities <==> Shaped(env, EntriesOf(log), log[..n], identity)
  {
    hide *;
    var all := EntriesOf(log);
    if n == 0 {
      NothingLive(env, log[..n]);
      NothingShaped(env, all, log[..n], identity);
    } else {
      var before, meta := log[..n - 1], log[n - 1];
      IdentitiesMeanEntries(env, log, n - 1, identity);
      LiveAbsorbs(env, log, n - 1);
      AbsorbBeside(env, all, Live(env, before), meta);
      ShapedAppends(env, all, before, meta, identity);
      if KeyOf(all, meta).Some? {
        var key := KeyOf(all, meta).value;
        LineagesMeanEntries(env, log, n - 1, key);
        OwnEntryAccumulates(env, all, before, Live(env, before), meta, key);
        LatestShape(env, all, Mine(all, before, key), meta, key.0, identity);
      }
    }
  }

  lemma LatestShape<S>(env: Env<S>, all: Entries, mine: seq<Meta>, meta: Meta, root: Id, identity: u64)
    requires root in all
    ensures HasShape(env, all, mine + [meta], root, |mine + [meta]|, identity)
       <==> env.identity(SignatureAt(all, root, mine + [meta])) == identity
  {
    hide SignatureAt;
    assert (mine + [meta])[..|mine + [meta]|] == mine + [meta];
  }

  lemma NothingShaped<S>(env: Env<S>, all: Entries, none: seq<Meta>, identity: u64)
    requires none == []
    ensures NothingDerived<S>().morphIdentities == {} && !Shaped(env, all, none, identity)
  {
    hide SignatureAt;
  }

  // ---- The episode counter ----

  /** Adding the entry to the list lets its lineage close one more episode on signal i. */
  predicate ClosesOn<S>(env: Env<S>, all: Entries, list: seq<Meta>, meta: Meta, i: Axis) {
    var key := KeyOf(all, meta);
    key.Some?
    && |EpisodesOf(env, all, list + [meta], key.value, i)| > |EpisodesOf(env, all, list, key.value, i)|
  }

  /** The signals on which the entry lets its lineage close one more episode. */
  function ClosedOn<S>(env: Env<S>, all: Entries, list: seq<Meta>, meta: Meta): set<Axis> {
    set i: Axis | i < AXES && ClosesOn(env, all, list, meta, i)
  }

  /** How often an entry closed an episode, counted signal by signal. */
  function Closings<S>(env: Env<S>, all: Entries, list: seq<Meta>): nat {
    if list == [] then 0
    else
      var before, last := list[..|list| - 1], list[|list| - 1];
      Closings(env, all, before) + |ClosedOn(env, all, before, last)|
  }

  /** The axes with an episode among these closings. */
  ghost function AxesOf(closed: seq<Closing>): set<Axis> {
    set c | c in closed :: c.0
  }

  lemma OneMoreClosing(closed: seq<Closing>, i: Axis, e: Regime.Episode)
    requires i !in AxesOf(closed)
    ensures AxesOf(closed + [(i, e)]) == AxesOf(closed) + {i} && |AxesOf(closed + [(i, e)])| == |AxesOf(closed)| + 1
  {
    assert forall c :: c in closed + [(i, e)] <==> c in closed || c == (i, e);
  }

  /** Feeding the observers closes at most one episode per axis, so there are as many closings as axes. */
  lemma {:induction false} ClosedCount(cfg: Regime.Config, observers: map<Axis, Regime.Snapshot>, ordinal: u64, edge: Residual,
                                       n: nat)
    requires n <= AXES
    ensures var closed := FeedObservers(cfg, observers, ordinal, edge, n).1;
      |closed| == |AxesOf(closed)| && forall i :: i in AxesOf(closed) ==> i < n
  {
    hide Regime.Step, Difference, AxesOf, ObserverAt;
    if n == 0 {
      NoClosings();
    } else {
      var (fed, closed) := FeedObservers(cfg, observers, ordinal, edge, n - 1);
      ClosedCount(cfg, observers, ordinal, edge, n - 1);
      var episode := Regime.Step(cfg, ObserverAt(fed, n - 1), ordinal, edge.child.values[n - 1]).1;
      if edge.Delta(n - 1) != 0 && episode.Some? {
        OneMoreClosing(closed, n - 1, episode.value);
      }
    }
  }

  lemma NoClosings()
    ensures AxesOf([]) == {}
  {
  }

  lemma AxesMean(closed: seq<Closing>, i: Axis)
    ensures i in AxesOf(closed) <==> exists e :: (i, e) in closed
  {
  }

  lemma ClosesOnMeans<S>(env: Env<S>, all: Entries, list: seq<Meta>, d: Derived<S>, meta: Meta, key: Key, i: Axis)
    requires Absorb(env, all, d, meta).Ok? && KeyOf(all, meta) == Some(key) && Observes(env, all, list, d, key, i)
    ensures meta.mutatorId.Some?
    ensures ClosesOn(env, all, list, meta, i) <==> i in AxesOf(AdvanceOf(env, all, d, meta, key.0).closed)
  {
    hide Absorb, AdvanceOf, EpisodesOf, Observes, AxesOf, RootOf;
    OwnEntryObserved(env, all, list, d, meta, key, i);
    AxesMean(AdvanceOf(env, all, d, meta, key.0).closed, i);
  }

  lemma EntryCloses<S>(env: Env<S>, all: Entries, list: seq<Meta>, d: Derived<S>, meta: Meta)
    requires Absorb(env, all, d, meta).Ok? && d.closedEpisodes == Nth(Closings(env, all, list))
    requires forall key: Key, i: Axis :: Observes(env, all, list, d, key, i)
    ensures Absorb(env, all, d, meta).value.closedEpisodes == Nth(Closings(env, all, list + [meta]))
  {
    hide Absorb, AdvanceOf, EdgeOf, Observes, KeyOf, ClosesOn, AxesOf, Closings, FeedRoot, StateBuckets;
    ClosingsAppend(env, all, list, meta);
    AbsorbBeside(env, all, d, meta);
    if KeyOf(all, meta).None? {
      NobodyCloses(env, all, list, meta);
    } else {
      var key := KeyOf(all, meta).value;
      ClosingsHere(env, all, list, d, meta, key);
    }
  }

  /** The closings of an own entry are counted axis by axis. */
  lemma ClosingsHere<S>(env: Env<S>, all: Entries, list: seq<Meta>, d: Derived<S>, meta: Meta, key: Key)
    requires Absorb(env, all, d, meta).Ok? && KeyOf(all, meta) == Some(key)
    requires forall i: Axis :: Observes(env, all, list, d, key, i)
    ensures meta.mutatorId.Some?
    ensures |ClosedOn(env, all, list, meta)| == |AdvanceOf(env, all, d, meta, key.0).closed|
  {
    hide Absorb, AdvanceOf, EdgeOf, Observes, ClosesOn, ClosedOn, AxesOf, LineageAt, FeedObservers, RootOf;
    AbsorbAdvances(env, all, d, meta);
    AdvanceFeeds(env, all, d, meta, key.0);
    var ls := LineageAt(all, d.lineages, key);
    ClosedCount(env.regime, ls.observers, SaturatingInc(ls.ordinal), EdgeOf(all, meta), AXES);
    forall i: Axis ensures i in ClosedOn(env, all, list, meta) <==> i in AxesOf(AdvanceOf(env, all, d, meta, key.0).closed) {
      ClosesOnMeans(env, all, list, d, meta, key, i);
      ClosedOnMeans(env, all, list, meta, i);
    }
    assert ClosedOn(env, all, list, meta) == AxesOf(AdvanceOf(env, all, d, meta, key.0).closed);
  }

  lemma ClosedOnMeans<S>(env: Env<S>, all: Entries, list: seq<Meta>, meta: Meta, i: Axis)
    ensures i in ClosedOn(env, all, list, meta) <==> i < AXES && ClosesOn(env, all, list, meta, i)
  {
    hide ClosesOn;
  }

  lemma NobodyCloses<S>(env: Env<S>, all: Entries, list: seq<Meta>, meta: Meta)
    requires KeyOf(all, meta).None?
    ensures ClosedOn(env, all, list, meta) == {}
  {
  }

  lemma ClosingsAppend<S>(env: Env<S>, all: Entries, list: seq<Meta>, meta: Meta)
    ensures Closings(env, all, list + [meta])
         == Closings(env, all, list) + |ClosedOn(env, all, list, meta)|
    ensures Closings(env, all, []) == 0
  {
    hide ClosesOn;
    assert (list + [meta])[..|list|] == list;
  }

  /** Main result for the episode counter: it counts every closing, saturating at 64 bits. */
  lemma {:induction false} CounterMeansClosings<S>(env: Env<S>, log: seq<Meta>, n: nat)
    requires Written(env, log) && n <= |log|
    ensures Live(env, log[..n]).closedEpisodes == Nth(Closings(env, EntriesOf(log), log[..n]))
  {
    hide *;
    var all := EntriesOf(log);
    if n == 0 {
      NothingLive(env, log[..n]);
      NothingClosed(env, all, log[..n]);
    } else {
      var before, meta := log[..n - 1], log[n - 1];
      CounterMeansClosings(env, log, n - 1);
      LiveAbsorbs(env, log, n - 1);
      forall key: Key, i: Axis ensures Observes(env, all, before, Live(env, before), key, i) {
        ObserversMeanSamples(env, log, n - 1, key, i);
      }
      EntryCloses(env, all, before, Live(env, before), meta);
    }
  }

  lemma NothingClosed<S>(env: Env<S>, all: Entries, none: seq<Meta>)
    requires none == []
    ensures NothingDerived<S>().closedEpisodes == Nth(Closings(env, all, none))
  {
  }
}
