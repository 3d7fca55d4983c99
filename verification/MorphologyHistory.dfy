/**
 What a signature says about the whole history of edges. Along one axis the history is the list of
 differences d_1 .. d_n; its signs are those of the nonzero running sums at the moving edges.
 */
module MorphologyHistory {
  import opened Wrappers
  import opened Words
  import opened Signals
  import opened Morphology

  // ---- Reading the history of one axis ----

  /** The running sum, saturating at 128 bits. */
  function RunningSum(ds: seq<i64>): int {
    if ds == [] then 0
    else
      var before := RunningSum(ds[..|ds| - 1]);
      if ds[|ds| - 1] == 0 then before else ToI128(before + ds[|ds| - 1])
  }

  /** The signs of the nonzero running sums, one per moving edge; true is up. */
  function Signs(ds: seq<i64>): seq<bool> {
    if ds == [] then []
    else
      var before := Signs(ds[..|ds| - 1]);
      if ds[|ds| - 1] == 0 || RunningSum(ds) == 0 then before else before + [RunningSum(ds) > 0]
  }

  /** How often neighbours differ. */
  function Changes(s: seq<bool>): nat {
    if |s| < 2 then 0 else Changes(s[..|s| - 1]) + if s[|s| - 1] != s[|s| - 2] then 1 else 0
  }

  /** The entries i .. i + n are there and all the same. */
  predicate Block(s: seq<bool>, i: nat, n: nat) {
    i + n <= |s| && forall k | i <= k < i + n :: s[k] == s[i]
  }

  /** `n` is the length of the longest block of equal signs. */
  ghost predicate LongestBlock(s: seq<bool>, n: nat) {
    (exists i: nat :: Block(s, i, n)) && forall i: nat, m: nat | Block(s, i, m) :: m <= n
  }

  /** `n` is the length of the longest block that ends the list. */
  ghost predicate FinalBlock(s: seq<bool>, n: nat) {
    n <= |s| && Block(s, |s| - n, n) && (s != [] ==> n > 0) && (n < |s| ==> s[|s| - n - 1] != s[|s| - 1])
  }

  function Cap(n: nat): u8 {
    if n > 255 then 255 else n
  }

  /** The axis state that a history should lead to. */
  ghost predicate Tells(a: AxisState, ds: seq<i64>, run: nat, longest: nat) {
    var s := Signs(ds);
    && a.cumulative == RunningSum(ds)
    && a.active == (s != [])
    && a.lastDir == (if s == [] then Still else if s[|s| - 1] then Up else Down)
    && FinalBlock(s, run) && a.run == Cap(run)
    && LongestBlock(s, longest) && a.maxRun == Cap(longest)
    && a.slew == Cap(Changes(s))
  }

  function MoveAll(ds: seq<i64>): AxisState {
    if ds == [] then IDLE else MoveAxis(MoveAll(ds[..|ds| - 1]), ds[|ds| - 1])
  }

  // ---- One more sign ----

  lemma FinalBlockGrows(s: seq<bool>, sign: bool, run: nat)
    requires FinalBlock(s, run)
    ensures FinalBlock(s + [sign], if s != [] && s[|s| - 1] == sign then run + 1 else 1)
  {
  }

  lemma LongestBlockGrows(s: seq<bool>, sign: bool, run: nat, longest: nat)
    requires FinalBlock(s + [sign], run) && LongestBlock(s, longest)
    ensures LongestBlock(s + [sign], if run > longest then run else longest)
  {
    var t, best := s + [sign], if run > longest then run else longest;
    var i: nat :| Block(s, i, longest);
    assert Block(t, i, longest);
    assert Block(t, |t| - run, run);
    forall j: nat, m: nat | Block(t, j, m) ensures m <= best {
      if j + m == |t| {
        assert m > run ==> j <= |t| - run - 1;
      } else {
        assert forall k | j <= k < j + m :: t[k] == s[k];
        if m > 0 { assert s[j] == t[j]; }
        assert Block(s, j, m);
      }
    }
  }

  lemma ChangesGrow(s: seq<bool>, sign: bool)
    ensures Changes(s + [sign]) == Changes(s) + if s != [] && s[|s| - 1] != sign then 1 else 0
  {
    assert (s + [sign])[..|s|] == s;
  }

  /** Capped counters do not notice how far past the cap they are. */
  lemma CapAdds(n: nat)
    ensures AddU8(Cap(n), 1) == Cap(n + 1)
  {
  }

  // ---- The meaning of an axis ----

  /** Replaying the differences of one axis leaves exactly what its history tells. */
  lemma {:induction false} AxisMeansHistory(ds: seq<i64>) returns (run: nat, longest: nat)
    ensures Tells(MoveAll(ds), ds, run, longest)
  {
    if ds == [] {
      run, longest := 0, 0;
      assert Block([], 0, 0);
    } else {
      hide *;
      var before, d := ds[..|ds| - 1], ds[|ds| - 1];
      run, longest := AxisMeansHistory(before);
      MoveAllStep(ds);
      if d != 0 && RunningSum(ds) != 0 {
        run, longest := SignAdds(MoveAll(before), ds, run, longest);
      } else {
        NoSignAdds(MoveAll(before), ds, run, longest);
      }
    }
  }

  lemma MoveAllStep(ds: seq<i64>)
    requires ds != []
    ensures MoveAll(ds) == MoveAxis(MoveAll(ds[..|ds| - 1]), ds[|ds| - 1])
  {
  }

  /** An edge that does not move the axis, or that brings its sum back to zero, leaves the signs alone. */
  lemma NoSignAdds(a: AxisState, ds: seq<i64>, run: nat, longest: nat)
    requires ds != [] && Tells(a, ds[..|ds| - 1], run, longest) && (ds[|ds| - 1] == 0 || RunningSum(ds) == 0)
    ensures Tells(MoveAxis(a, ds[|ds| - 1]), ds, run, longest)
  {
    hide FinalBlock, LongestBlock, Changes;
  }

  /** An edge that leaves a nonzero sum appends its sign. */
  lemma SignAdds(a: AxisState, ds: seq<i64>, run: nat, longest: nat) returns (newRun: nat, newLongest: nat)
    requires ds != [] && Tells(a, ds[..|ds| - 1], run, longest) && ds[|ds| - 1] != 0 && RunningSum(ds) != 0
    ensures Tells(MoveAxis(a, ds[|ds| - 1]), ds, newRun, newLongest)
  {
    hide FinalBlock, LongestBlock, Changes, Signs, RunningSum;
    var s, sign := Signs(ds[..|ds| - 1]), RunningSum(ds) > 0;
    SignsStep(ds);
    FinalBlockGrows(s, sign, run);
    ChangesGrow(s, sign);
    CapAdds(run);
    CapAdds(Changes(s));
    newRun := if s != [] && s[|s| - 1] == sign then run + 1 else 1;
    LongestBlockGrows(s, sign, newRun, longest);
    newLongest := if newRun > longest then newRun else longest;
  }

  lemma SignsStep(ds: seq<i64>)
    requires ds != [] && ds[|ds| - 1] != 0 && RunningSum(ds) != 0
    ensures RunningSum(ds) == ToI128(RunningSum(ds[..|ds| - 1]) + ds[|ds| - 1])
    ensures Signs(ds) == Signs(ds[..|ds| - 1]) + [RunningSum(ds) > 0]
  {
  }

  // ---- Whole lineages ----

  /** The accumulator after a list of edges. */
  function PushAll(acc: Accumulator, edges: seq<Residual>): Accumulator {
    if edges == [] then acc else PushState(PushAll(acc, edges[..|edges| - 1]), edges[|edges| - 1])
  }

  /** The differences along one axis. */
  function Along(edges: seq<Residual>, i: Axis): (ds: seq<i64>)
    ensures |ds| == |edges|
  {
    if edges == [] then [] else Along(edges[..|edges| - 1], i) + [edges[|edges| - 1].Delta(i)]
  }

  lemma {:induction false} PushAllMovesEachAxis(root: SignalVector, edges: seq<Residual>, i: Axis)
    ensures PushAll(WithBaseline(Fresh(), root), edges).axes[i] == MoveAll(Along(edges, i))
  {
    if edges != [] {
      PushAllMovesEachAxis(root, edges[..|edges| - 1], i);
      assert Along(edges, i)[..|edges| - 1] == Along(edges[..|edges| - 1], i);
    }
  }

  /** The signature after a list of edges, starting from the root's observation. */
  function LineageSignature(root: SignalVector, edges: seq<Residual>, depth: u32): Signature
    requires edges != []
  {
    SignatureOf(PushAll(WithBaseline(Fresh(), root), edges), edges[|edges| - 1], depth)
  }

  /** What a lineage's signature says about axis `i`, read off its whole history. */
  lemma SignatureMeansHistory(root: SignalVector, edges: seq<Residual>, depth: u32, i: Axis) returns (longest: nat)
    requires edges != []
    ensures var sig, ds := LineageSignature(root, edges, depth), Along(edges, i);
      var s := Signs(ds);
      && (i in sig.axisMask <==> s != [])
      && sig.directions[i] == (if s == [] then Still else if s[|s| - 1] then Up else Down)
      && sig.magBins[i] == (if s == [] then 0 else MagnitudeBucket(Truncated(Abs(RunningSum(ds)))))
      && sig.slewBins[i] == Cap(Changes(s))
      && LongestBlock(s, longest) && sig.persistence[i] == Cap(longest)
  {
    hide Signs, RunningSum, Changes, LongestBlock, FinalBlock, MoveAxis;
    var run;
    run, longest := AxisMeansHistory(Along(edges, i));
    PushAllMovesEachAxis(root, edges, i);
    var acc := PushAll(WithBaseline(Fresh(), root), edges);
    hide PushAll, MoveAll;
    assert ActiveAxes(acc) == LineageSignature(root, edges, depth).axisMask;
  }

  /** The convergence class, read off the history of the dominant axis. */
  lemma ConvergenceMeansHistory(root: SignalVector, edges: seq<Residual>, depth: u32, dominant: Axis)
    requires edges != []
    requires var sig := LineageSignature(root, edges, depth); IsDominant(sig.axisMask, sig.magBins, Some(dominant))
    ensures var s := Signs(Along(edges, dominant));
      LineageSignature(root, edges, depth).convergence ==
        if exists k :: 0 < k < |s| && s[k] != s[k - 1] then Oscillating
        else if MagnitudeBucket(Truncated(Abs(RunningSum(Along(edges, dominant))))) >= 32 then Diverging
        else Converging
  {
    hide *;
    var acc := PushAll(WithBaseline(Fresh(), root), edges);
    var longest := SignatureMeansHistory(root, edges, depth, dominant);
    LineageReads(root, edges, depth);
    PushUsesReportedAxis(acc, edges[|edges| - 1], depth, Some(dominant));
    ChangesPositive(Signs(Along(edges, dominant)));
    CapPositive(Changes(Signs(Along(edges, dominant))));
    DominantMoved(root, edges, depth, dominant);
  }

  lemma CapPositive(n: nat)
    ensures Cap(n) > 0 <==> n > 0
  {
  }

  lemma DominantMoved(root: SignalVector, edges: seq<Residual>, depth: u32, dominant: Axis)
    requires edges != []
    requires var sig := LineageSignature(root, edges, depth); IsDominant(sig.axisMask, sig.magBins, Some(dominant))
    ensures Signs(Along(edges, dominant)) != []
  {
    hide LineageSignature, Signs, Along;
    var longest := SignatureMeansHistory(root, edges, depth, dominant);
  }

  lemma LineageReads(root: SignalVector, edges: seq<Residual>, depth: u32)
    requires edges != []
    ensures LineageSignature(root, edges, depth)
         == SignatureOf(PushAll(WithBaseline(Fresh(), root), edges), edges[|edges| - 1], depth)
  {
    hide PushAll, SignatureOf;
  }

  /** What moved with the dominant axis, read off the latest edge: the other axes on which parent and child read
      differently. */
  lemma CoactivationMeansLatestEdge(root: SignalVector, edges: seq<Residual>, depth: u32, dominant: Option<Axis>, i: Axis)
    requires edges != []
    requires var sig := LineageSignature(root, edges, depth); IsDominant(sig.axisMask, sig.magBins, dominant)
    ensures var sig, last := LineageSignature(root, edges, depth), edges[|edges| - 1];
      i in sig.coactivation <==>
        dominant.Some? && i != dominant.value && Reading(last.parent, i) != Reading(last.child, i)
  {
    var acc, last := PushAll(WithBaseline(Fresh(), root), edges), edges[|edges| - 1];
    hide *;
    LineageReads(root, edges, depth);
    PushUsesReportedAxis(acc, last, depth, dominant);
  }

  /** Which signals appeared and which vanished on the latest edge. */
  lemma StateChangeMeansLatestEdge(root: SignalVector, edges: seq<Residual>, depth: u32)
    requires edges != []
    ensures var sig, last := LineageSignature(root, edges, depth), edges[|edges| - 1];
      var appeared := exists i: Axis :: i in last.child.touched && i !in last.parent.touched;
      var vanished := exists i: Axis :: i in last.parent.touched && i !in last.child.touched;
      && (sig.stateChange == Shifted <==> appeared && vanished)
      && (sig.stateChange == Expanded <==> appeared && !vanished)
      && (sig.stateChange == Contracted <==> !appeared && vanished)
  {
    var last := edges[|edges| - 1];
    hide PushAll;
    assert forall i: Axis :: i in last.TouchedNew() <==> i in last.child.touched && i !in last.parent.touched;
    assert forall i: Axis :: i in last.TouchedLost() <==> i in last.parent.touched && i !in last.child.touched;
  }

  /** The signature claims an unknown structure exactly when it reports an axis, and carries the depth it was read at;
      the accumulator keeps the root's observation and the latest one. */
  lemma RestOfSignature(root: SignalVector, edges: seq<Residual>, depth: u32)
    requires edges != []
    ensures var sig, acc := LineageSignature(root, edges, depth), PushAll(WithBaseline(Fresh(), root), edges);
      && (sig.structuredUnknown <==> exists i: Axis :: Signs(Along(edges, i)) != [])
      && sig.depth == depth && sig.replayStability == 0
      && acc.baseline == Some(root) && acc.prev == Some(edges[|edges| - 1].child)
  {
    hide *;
    SignatureFlags(root, edges, depth);
    KeepsObservations(root, edges);
    AxesReported(root, edges, depth);
    var sig := LineageSignature(root, edges, depth);
    if sig.structuredUnknown {
      var i: Axis :| i in sig.axisMask;
      assert Signs(Along(edges, i)) != [];
    }
    if exists i: Axis :: Signs(Along(edges, i)) != [] {
      var i: Axis :| Signs(Along(edges, i)) != [];
      assert i in sig.axisMask;
    }
  }

  lemma SignatureFlags(root: SignalVector, edges: seq<Residual>, depth: u32)
    requires edges != []
    ensures var sig := LineageSignature(root, edges, depth);
      && (sig.structuredUnknown <==> exists i: Axis :: i in sig.axisMask)
      && sig.depth == depth && sig.replayStability == 0
  {
    hide PushAll;
  }

  lemma AxesReported(root: SignalVector, edges: seq<Residual>, depth: u32)
    requires edges != []
    ensures forall i: Axis :: i in LineageSignature(root, edges, depth).axisMask <==> Signs(Along(edges, i)) != []
  {
    hide *;
    forall i: Axis ensures i in LineageSignature(root, edges, depth).axisMask <==> Signs(Along(edges, i)) != [] {
      var longest := SignatureMeansHistory(root, edges, depth, i);
    }
  }

  lemma {:induction false} KeepsObservations(root: SignalVector, edges: seq<Residual>)
    ensures var acc := PushAll(WithBaseline(Fresh(), root), edges);
      acc.baseline == Some(root) && acc.prev == Some(if edges == [] then root else edges[|edges| - 1].child)
  {
    if edges != [] {
      KeepsObservations(root, edges[..|edges| - 1]);
    }
  }

  lemma {:induction false} ChangesPositive(s: seq<bool>)
    ensures Changes(s) > 0 <==> exists k :: 0 < k < |s| && s[k] != s[k - 1]
  {
    if |s| >= 2 {
      var before := s[..|s| - 1];
      ChangesPositive(before);
      if exists k :: 0 < k < |s| && s[k] != s[k - 1] {
        var k :| 0 < k < |s| && s[k] != s[k - 1];
        assert k < |before| ==> before[k] != before[k - 1];
      }
      if exists k :: 0 < k < |before| && before[k] != before[k - 1] {
        var k :| 0 < k < |before| && before[k] != before[k - 1];
        assert s[k] != s[k - 1];
      }
      if s[|s| - 1] != s[|s| - 2] {
        assert 0 < |s| - 1 < |s|;
      }
    }
  }

  // ---- Exactness ----

  function Sum(ds: seq<i64>): int {
    if ds == [] then 0 else Sum(ds[..|ds| - 1]) + ds[|ds| - 1]
  }

  /** With fewer than 2^64 edges the running sum never saturates: it is the exact sum. */
  lemma {:induction false} RunningSumIsExact(ds: seq<i64>)
    requires |ds| < TWO_64
    ensures RunningSum(ds) == Sum(ds) && Abs(Sum(ds)) <= |ds| * TWO_63
  {
    if ds != [] {
      RunningSumIsExact(ds[..|ds| - 1]);
    }
  }

  // ---- Replay ----

  datatype Link = Link(parent: SignalVector, child: SignalVector, depth: u32)

  function EdgesOf(links: seq<Link>): (edges: seq<Residual>)
    ensures |edges| == |links| && forall k | 0 <= k < |links| :: edges[k] == Residual(links[k].parent, links[k].child)
  {
    seq(|links|, (k: nat) requires k < |links| => Residual(links[k].parent, links[k].child))
  }

  /** `replay_chain`: one signature per edge, each the signature of the history so far. */
  method ReplayChain(acc: LineageAccumulator, links: seq<Link>) returns (signatures: seq<Signature>)
    requires acc.Valid()
    modifies acc.Footprint()
    ensures acc.Value() == PushAll(old(acc.Value()), EdgesOf(links))
    ensures |signatures| == |links|
    ensures forall k | 0 <= k < |links| ::
      signatures[k] == SignatureOf(PushAll(old(acc.Value()), EdgesOf(links)[..k + 1]), EdgesOf(links)[k], links[k].depth)
  {
    hide PushState, SignatureOf;
    ghost var edges := EdgesOf(links);
    signatures := [];
    for i := 0 to |links|
      invariant acc.Value() == PushAll(old(acc.Value()), edges[..i]) && |signatures| == i
      invariant forall k | 0 <= k < i ::
        signatures[k] == SignatureOf(PushAll(old(acc.Value()), edges[..k + 1]), edges[k], links[k].depth)
    {
      var sig := acc.Push(Residual(links[i].parent, links[i].child), links[i].depth);
      assert edges[..i + 1][..i] == edges[..i];
      signatures := signatures + [sig];
    }
    assert edges[..|links|] == edges;
  }
}
