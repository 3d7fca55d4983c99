/**
 Lineage shapes: an accumulator folds one edge at a time and yields a signature; the signature
 is proved to mean the same thing read off the whole history of edges.
 */
module Morphology {
  import opened Wrappers
  import opened Words
  import opened Signals

  datatype Direction = Still | Up | Down

  datatype CmpConvergence = Unconverged | Converging | Oscillating | Diverging

  datatype StateChange = Unchanged | Expanded | Contracted | Shifted

  type Bins = s: seq<u8> | |s| == AXES witness seq(AXES, i => 0)
  type Directions = s: seq<Direction> | |s| == AXES witness seq(AXES, i => Still)

  datatype Signature = Signature(
    axisMask: set<Axis>,
    directions: Directions,
    magBins: Bins,
    slewBins: Bins,
    persistence: Bins,
    coactivation: set<Axis>,
    convergence: CmpConvergence,
    stateChange: StateChange,
    replayStability: u8,
    structuredUnknown: bool,
    depth: u32)

  /** The accumulator's fields for one axis. */
  datatype AxisState = AxisState(
    cumulative: int,
    lastDir: Direction,
    run: u8,
    maxRun: u8,
    slew: u8,
    active: bool)

  const IDLE: AxisState := AxisState(0, Still, 0, 0, 0, false)

  type AxisStates = s: seq<AxisState> | |s| == AXES witness seq(AXES, i => IDLE)

  datatype Accumulator = Accumulator(
    axes: AxisStates,
    baseline: Option<SignalVector>,
    prev: Option<SignalVector>)

  function Fresh(): Accumulator {
    Accumulator(seq(AXES, i => IDLE), None, None)
  }

  function WithBaseline(acc: Accumulator, root: SignalVector): Accumulator {
    acc.(baseline := Some(root), prev := Some(root))
  }

  // ---- One edge, as a function ----

  function DirectionOf(sum: int): Direction {
    if sum > 0 then Up else if sum < 0 then Down else Still
  }

  function Max(a: u8, b: u8): u8 {
    if a > b then a else b
  }

  /** One axis after a difference of `d`. */
  function MoveAxis(a: AxisState, d: i64): AxisState {
    if d == 0 then a
    else
      var sum := ToI128(a.cumulative + d);
      var dir := DirectionOf(sum);
      if dir == Still then a.(cumulative := sum)
      else
        var reversal := a.lastDir != Still && dir != a.lastDir;
        var run := if dir == a.lastDir then AddU8(a.run, 1) else 1;
        AxisState(sum, dir, run, Max(a.maxRun, run), if reversal then AddU8(a.slew, 1) else a.slew, true)
  }

  function PushState(acc: Accumulator, edge: Residual): Accumulator {
    Accumulator(
      seq(AXES, (i: nat) requires i < AXES => MoveAxis(acc.axes[i], edge.Delta(i))),
      if acc.baseline.None? then Some(edge.parent) else acc.baseline,
      Some(edge.child))
  }

  function ActiveAxes(acc: Accumulator): set<Axis> {
    set i: Axis | i < AXES && acc.axes[i].active
  }

  function Shown(a: AxisState): Direction {
    if a.active then a.lastDir else Still
  }

  function ShownDirections(acc: Accumulator): Directions {
    seq(AXES, (i: nat) requires i < AXES => Shown(acc.axes[i]))
  }

  function MagBin(a: AxisState): u8 {
    if a.active then MagnitudeBucket(Truncated(Abs(a.cumulative))) else 0
  }

  function MagBins(acc: Accumulator): Bins {
    seq(AXES, (i: nat) requires i < AXES => MagBin(acc.axes[i]))
  }

  /** The first axis below `n` in `mask` with the largest bin. */
  function BestAxis(mask: set<Axis>, bins: Bins, n: nat): (best: Option<Axis>)
    requires n <= AXES
    ensures best.Some? ==> best.value < n && best.value in mask
  {
    if n == 0 then None
    else
      var best := BestAxis(mask, bins, n - 1);
      if n - 1 in mask && (best.None? || bins[n - 1] > bins[best.value]) then Some(n - 1) else best
  }

  /** Both are one axis, or there is no axis at all: `a` has the largest bin, the lowest number among ties. */
  predicate IsDominant(mask: set<Axis>, bins: Bins, best: Option<Axis>) {
    match best
    case None => mask == {}
    case Some(a) =>
      && a in mask
      && (forall j | j in mask :: bins[j] <= bins[a])
      && (forall j | j in mask && j < a :: bins[j] < bins[a])
  }

  function StateChangeOf(edge: Residual): StateChange {
    if edge.TouchedNew() != {} && edge.TouchedLost() != {} then Shifted
    else if edge.TouchedNew() != {} then Expanded
    else if edge.TouchedLost() != {} then Contracted
    else Unchanged
  }

  function Coactivation(dominant: Option<Axis>, edge: Residual): set<Axis> {
    if dominant.None? then {} else set i: Axis | i < AXES && i != dominant.value && edge.Delta(i) != 0
  }

  function ConvergenceOf(dominant: Option<Axis>, acc: Accumulator): CmpConvergence {
    if dominant.None? then Unconverged
    else if acc.axes[dominant.value].slew > 0 then Oscillating
    else if MagBin(acc.axes[dominant.value]) >= 32 then Diverging
    else Converging
  }

  /** The signature of the latest edge, given the accumulator after it. */
  function SignatureOf(acc: Accumulator, edge: Residual, depth: u32): Signature {
    var dominant := BestAxis(ActiveAxes(acc), MagBins(acc), AXES);
    Signature(
      ActiveAxes(acc),
      ShownDirections(acc),
      MagBins(acc),
      seq(AXES, (i: nat) requires i < AXES => acc.axes[i].slew),
      seq(AXES, (i: nat) requires i < AXES => acc.axes[i].maxRun),
      Coactivation(dominant, edge),
      ConvergenceOf(dominant, acc),
      StateChangeOf(edge),
      0,
      ActiveAxes(acc) != {},
      depth)
  }

  // ---- The dominant axis ----

  function Below(mask: set<Axis>, n: nat): set<Axis> {
    set i | i in mask && i < n
  }

  lemma {:induction false} BestAxisIsDominant(mask: set<Axis>, bins: Bins, n: nat)
    requires n <= AXES
    ensures IsDominant(Below(mask, n), bins, BestAxis(mask, bins, n))
  {
    if n > 0 {
      BestAxisIsDominant(mask, bins, n - 1);
      assert Below(mask, n) == if n - 1 in mask then Below(mask, n - 1) + {n - 1} else Below(mask, n - 1);
    }
  }

  /** There is exactly one answer. */
  lemma DominantIsUnique(mask: set<Axis>, bins: Bins, a: Option<Axis>, b: Option<Axis>)
    requires IsDominant(mask, bins, a) && IsDominant(mask, bins, b)
    ensures a == b
  {
  }

  /** `dominant_axis`: a scan over all axes. */
  method DominantAxis(sig: Signature) returns (best: Option<Axis>)
    ensures IsDominant(sig.axisMask, sig.magBins, best)
  {
    best := None;
    for i := 0 to AXES
      invariant best == BestAxis(sig.axisMask, sig.magBins, i)
    {
      if i in sig.axisMask {
        var m := sig.magBins[i];
        if best.None? || m > sig.magBins[best.value] {
          best := Some(i);
        }
      }
    }
    BestAxisIsDominant(sig.axisMask, sig.magBins, AXES);
    assert Below(sig.axisMask, AXES) == sig.axisMask;
  }

  /** The axis that coactivation and convergence are relative to is the one a reader of the signature finds: the mask
      holds the other axes on which the edge's two observations read differently, and the class is read off that axis's
      bins. */
  lemma PushUsesReportedAxis(acc: Accumulator, edge: Residual, depth: u32, dominant: Option<Axis>)
    requires var sig := SignatureOf(acc, edge, depth); IsDominant(sig.axisMask, sig.magBins, dominant)
    ensures var sig := SignatureOf(acc, edge, depth);
      forall i: Axis :: i in sig.coactivation <==>
        dominant.Some? && i != dominant.value && Reading(edge.parent, i) != Reading(edge.child, i)
    ensures var sig := SignatureOf(acc, edge, depth);
      match dominant
      case None => sig.convergence == Unconverged
      case Some(a) =>
        && (sig.convergence == Oscillating <==> sig.slewBins[a] > 0)
        && (sig.convergence == Diverging <==> sig.slewBins[a] == 0 && sig.magBins[a] >= 32)
        && (sig.convergence == Converging <==> sig.slewBins[a] == 0 && sig.magBins[a] < 32)
  {
    hide *;
    var mask, bins := ActiveAxes(acc), MagBins(acc);
    BestAxisIsDominant(mask, bins, AXES);
    NothingAbove(mask);
    SignatureReads(acc, edge, depth);
    DominantIsUnique(mask, bins, dominant, BestAxis(mask, bins, AXES));
    CoactivationReads(dominant, edge);
    ConvergenceReads(dominant, acc, SignatureOf(acc, edge, depth));
  }

  lemma NothingAbove(mask: set<Axis>)
    ensures Below(mask, AXES) == mask
  {
  }

  lemma SignatureReads(acc: Accumulator, edge: Residual, depth: u32)
    ensures var sig := SignatureOf(acc, edge, depth);
      var dominant := BestAxis(ActiveAxes(acc), MagBins(acc), AXES);
      && sig.axisMask == ActiveAxes(acc) && sig.magBins == MagBins(acc)
      && sig.coactivation == Coactivation(dominant, edge) && sig.convergence == ConvergenceOf(dominant, acc)
      && forall i: Axis :: sig.slewBins[i] == acc.axes[i].slew && sig.magBins[i] == MagBin(acc.axes[i])
  {
    hide ActiveAxes, BestAxis, Coactivation, ConvergenceOf, MagBin;
  }

  lemma CoactivationReads(dominant: Option<Axis>, edge: Residual)
    ensures forall i: Axis :: i in Coactivation(dominant, edge) <==>
      dominant.Some? && i != dominant.value && Reading(edge.parent, i) != Reading(edge.child, i)
  {
    forall i: Axis {
      DeltaSign(edge, i);
    }
    hide Reading, Difference;
  }

  lemma ConvergenceReads(dominant: Option<Axis>, acc: Accumulator, sig: Signature)
    requires forall i: Axis :: sig.slewBins[i] == acc.axes[i].slew && sig.magBins[i] == MagBin(acc.axes[i])
    ensures var c := ConvergenceOf(dominant, acc);
      match dominant
      case None => c == Unconverged
      case Some(a) =>
        && (c == Oscillating <==> sig.slewBins[a] > 0)
        && (c == Diverging <==> sig.slewBins[a] == 0 && sig.magBins[a] >= 32)
        && (c == Converging <==> sig.slewBins[a] == 0 && sig.magBins[a] < 32)
  {
  }

  // ---- The accumulator ----

  lemma NoMove(a: AxisState)
    ensures MoveAxis(a, 0) == a
  {
  }

  lemma NoAxisYet(mask: set<Axis>, bins: Bins)
    ensures BestAxis(mask, bins, 0) == None
  {
  }

  lemma NextAxis(mask: set<Axis>, bins: Bins, i: nat)
    requires i < AXES
    ensures BestAxis(mask, bins, i + 1) ==
      var best := BestAxis(mask, bins, i);
      if i in mask && (best.None? || bins[i] > bins[best.value]) then Some(i) else best
  {
  }

  lemma ActiveBin(a: AxisState)
    ensures MagBin(a) == if a.active then MagnitudeBucket(Truncated(Abs(a.cumulative))) else 0
  {
  }

  lemma NothingBeside(edge: Residual)
    ensures Coactivation(None, edge) == {}
  {
  }

  class LineageAccumulator {
    const cumulative: array<int>
    const lastDir: array<Direction>
    const run: array<u8>
    const maxRun: array<u8>
    const slew: array<u8>
    var axisMask: set<Axis>
    var baseline: Option<SignalVector>
    var prev: Option<SignalVector>

    ghost predicate Valid() {
      && cumulative.Length == AXES && lastDir.Length == AXES
      && run.Length == AXES && maxRun.Length == AXES && slew.Length == AXES
      && run != maxRun && run != slew && maxRun != slew
    }

    ghost function Footprint(): set<object> {
      {this, cumulative, lastDir, run, maxRun, slew}
    }

    ghost function AxisAt(i: Axis): AxisState
      requires Valid()
      reads this, cumulative, lastDir, run, maxRun, slew
    {
      AxisState(cumulative[i], lastDir[i], run[i], maxRun[i], slew[i], i in axisMask)
    }

    ghost function Value(): Accumulator
      requires Valid()
      reads this, cumulative, lastDir, run, maxRun, slew
    {
      Accumulator(seq(AXES, (i: nat) requires i < AXES
        reads this, cumulative, lastDir, run, maxRun, slew => AxisAt(i)), baseline, prev)
    }

    constructor ()
      ensures Valid() && Value() == Fresh() && fresh(Footprint())
    {
      cumulative := new int[AXES](_ => 0);
      lastDir := new Direction[AXES](_ => Still);
      run := new u8[AXES](_ => 0);
      maxRun := new u8[AXES](_ => 0);
      slew := new u8[AXES](_ => 0);
      axisMask, baseline, prev := {}, None, None;
    }

    method InitBaseline(root: SignalVector)
      requires Valid()
      modifies this
      ensures Value() == WithBaseline(old(Value()), root)
    {
      baseline := Some(root);
      prev := Some(root);
      assert forall i: Axis | i < AXES :: AxisAt(i) == old(AxisAt(i));
    }

    /** One axis of one edge. */
    method Move(i: Axis, d: i64)
      requires Valid() && d != 0
      modifies Footprint()
      ensures AxisAt(i) == MoveAxis(old(AxisAt(i)), d)
      ensures forall k: Axis | k != i :: AxisAt(k) == old(AxisAt(k))
      ensures baseline == old(baseline) && prev == old(prev)
    {
      cumulative[i] := ToI128(cumulative[i] + d);
      var dir := DirectionOf(cumulative[i]);
      if dir != Still {
        if lastDir[i] != Still && dir != lastDir[i] {
          slew[i] := AddU8(slew[i], 1);
          run[i] := 1;
        } else if lastDir[i] == dir {
          run[i] := AddU8(run[i], 1);
        } else {
          run[i] := 1;
        }
        lastDir[i] := dir;
        maxRun[i] := Max(maxRun[i], run[i]);
        axisMask := axisMask + {i};
      }
    }

    /** Folds one edge and reads the signature off the new state. */
    method Push(edge: Residual, depth: u32) returns (sig: Signature)
      requires Valid()
      modifies Footprint()
      ensures Value() == PushState(old(Value()), edge)
      ensures sig == SignatureOf(Value(), edge, depth)
    {
      hide MoveAxis;
      if baseline.None? {
        baseline := Some(edge.parent);
        prev := Some(edge.parent);
      }
      for i := 0 to AXES
        invariant baseline == if old(baseline).None? then Some(edge.parent) else old(baseline)
        invariant forall k: Axis | k < i :: AxisAt(k) == MoveAxis(old(AxisAt(k)), edge.Delta(k))
        invariant forall k: Axis | i <= k :: AxisAt(k) == old(AxisAt(k))
      {
        var d := edge.Delta(i);
        if d == 0 {
          NoMove(AxisAt(i));
        } else {
          Move(i, d);
        }
      }
      prev := Some(edge.child);
      sig := ReadSignature(edge, depth);
    }

    /** The masks and bins, and the dominant axis on the way. */
    method ReadAxes() returns (directions: Directions, magBins: Bins, dominant: Option<Axis>)
      requires Valid()
      ensures directions == ShownDirections(Value()) && magBins == MagBins(Value())
      ensures dominant == BestAxis(ActiveAxes(Value()), MagBins(Value()), AXES)
    {
      hide MagBin, BestAxis;
      ghost var acc := Value();
      ghost var bins := MagBins(acc);
      assert axisMask == ActiveAxes(acc);
      directions := seq(AXES, i => Still);
      magBins := seq(AXES, i => 0);
      dominant := None;
      NoAxisYet(axisMask, bins);
      for i := 0 to AXES
        invariant forall k: Axis | k < i :: magBins[k] == bins[k] && directions[k] == Shown(acc.axes[k])
        invariant forall k: Axis | i <= k :: magBins[k] == 0 && directions[k] == Still
        invariant dominant == BestAxis(axisMask, bins, i)
      {
        assert acc.axes[i] == AxisAt(i);
        NextAxis(axisMask, bins, i);
        ActiveBin(acc.axes[i]);
        if i in axisMask {
          directions := directions[i := lastDir[i]];
          var mag := MagnitudeBucket(Truncated(Abs(cumulative[i])));
          magBins := magBins[i := mag];
          if dominant.None? || mag > magBins[dominant.value] {
            dominant := Some(i);
          }
        }
      }
    }

    /** The signals that moved on the latest edge together with `axis`. */
    static method MovedBeside(axis: Axis, edge: Residual) returns (mask: set<Axis>)
      ensures mask == Coactivation(Some(axis), edge)
    {
      mask := {};
      for i := 0 to AXES
        invariant mask == set k: Axis | k < i && k != axis && edge.Delta(k) != 0
      {
        if i != axis && edge.Delta(i) != 0 {
          mask := mask + {i};
        }
      }
    }

    /** The second half of a push. */
    method ReadSignature(edge: Residual, depth: u32) returns (sig: Signature)
      requires Valid()
      ensures sig == SignatureOf(Value(), edge, depth)
    {
      hide MagBin, BestAxis, Coactivation, StateChangeOf;
      ghost var acc := Value();
      var directions, magBins, dominant := ReadAxes();
      var coactivation: set<Axis> := {};
      var convergence := Unconverged;
      NothingBeside(edge);
      if dominant.Some? {
        coactivation := MovedBeside(dominant.value, edge);
        var s := slew[dominant.value];
        assert acc.axes[dominant.value] == AxisAt(dominant.value);
        convergence := if s > 0 then Oscillating else if magBins[dominant.value] >= 32 then Diverging else Converging;
      }
      assert axisMask == ActiveAxes(acc);
      assert slew[..] == SignatureOf(acc, edge, depth).slewBins;
      assert maxRun[..] == SignatureOf(acc, edge, depth).persistence;
      sig := Signature(axisMask, directions, magBins, slew[..], maxRun[..], coactivation, convergence,
        StateChangeOf(edge), 0, axisMask != {}, depth);
    }
  }
}
