/**
 Two-sided boundary minimization: bring a passing and a failing input together while a
 verifier still tells them apart.
 */
module BoundaryMinimize {
  import opened Wrappers
  import opened Bytes

  const MAX_INPUT_LEN: nat := 0x10_0000
  const MAX_ITERATIONS: nat := 0x10_0000
  const U64_MAX: nat := 0xFFFF_FFFF_FFFF_FFFF

  // ---- Distance ----

  function Abs(x: int): nat {
    if x < 0 then -x else x
  }

  function Max(a: nat, b: nat): nat {
    if a < b then b else a
  }

  function Min(a: nat, b: nat): nat {
    if a < b then a else b
  }

  /** The cost of one position: the difference of two bytes, 256 where only one side has a
      byte, nothing where neither has one. */
  function Cost(a: seq<byte>, b: seq<byte>, i: nat): (c: nat)
    ensures c <= 256
  {
    if i < |a| && i < |b| then
      ByteOfIntOf(a[i]);
      ByteOfIntOf(b[i]);
      Abs(IntOf(a[i]) - IntOf(b[i]))
    else if i < |a| || i < |b| then 256 else 0
  }

  function CostBelow(a: seq<byte>, b: seq<byte>, n: nat): nat {
    if n == 0 then 0 else CostBelow(a, b, n - 1) + Cost(a, b, n - 1)
  }

  /** The total cost of all positions. */
  function Distance(a: seq<byte>, b: seq<byte>): nat {
    CostBelow(a, b, Max(|a|, |b|))
  }

  /** The number of positions that cost something: mismatches plus length difference. */
  function GapBelow(a: seq<byte>, b: seq<byte>, n: nat): (g: nat)
    ensures g <= n
  {
    if n == 0 then 0 else GapBelow(a, b, n - 1) + (if Cost(a, b, n - 1) > 0 then 1 else 0)
  }

  function Gap(a: seq<byte>, b: seq<byte>): nat {
    GapBelow(a, b, Max(|a|, |b|))
  }

  lemma {:induction false} CostBeyond(a: seq<byte>, b: seq<byte>, n: nat)
    requires n >= Max(|a|, |b|)
    ensures CostBelow(a, b, n) == Distance(a, b)
    decreases n
  {
    if n > Max(|a|, |b|) {
      CostBeyond(a, b, n - 1);
    }
  }

  lemma CostZero(a: seq<byte>, b: seq<byte>, i: nat)
    ensures Cost(a, b, i) == 0 <==> (i < |a| && i < |b| && a[i] == b[i]) || (i >= |a| && i >= |b|)
  {
    hide IntOf, ByteOf;
    if i < |a| && i < |b| {
      ByteOfIntOf(a[i]);
      ByteOfIntOf(b[i]);
    }
  }

  lemma {:induction false} CostTriangle(a: seq<byte>, b: seq<byte>, c: seq<byte>, n: nat)
    ensures CostBelow(a, c, n) <= CostBelow(a, b, n) + CostBelow(b, c, n)
  {
    hide IntOf;
    if n > 0 {
      CostTriangle(a, b, c, n - 1);
    }
  }

  lemma {:induction false} CostSymmetric(a: seq<byte>, b: seq<byte>, n: nat)
    ensures CostBelow(a, b, n) == CostBelow(b, a, n)
  {
    hide IntOf;
    if n > 0 {
      CostSymmetric(a, b, n - 1);
    }
  }

  lemma {:induction false} ZeroMeansEqual(a: seq<byte>, b: seq<byte>, n: nat)
    ensures (CostBelow(a, b, n) == 0 <==> GapBelow(a, b, n) == 0)
    ensures CostBelow(a, b, n) == 0 <==> forall i | 0 <= i < n :: Cost(a, b, i) == 0
  {
    hide Cost;
    if n > 0 {
      ZeroMeansEqual(a, b, n - 1);
    }
  }

  /** The byte distance is a metric. */
  lemma DistanceIsMetric(a: seq<byte>, b: seq<byte>, c: seq<byte>)
    ensures Distance(a, b) == 0 <==> a == b
    ensures Distance(a, b) == Distance(b, a)
    ensures Distance(a, c) <= Distance(a, b) + Distance(b, c)
    ensures Gap(a, b) == 0 <==> a == b
  {
    hide CostBelow, GapBelow, Cost;
    var n := Max(Max(|a|, |b|), |c|);
    CostBeyond(a, b, n);
    CostBeyond(b, c, n);
    CostBeyond(a, c, n);
    CostTriangle(a, b, c, n);
    CostSymmetric(a, b, Max(|a|, |b|));
    ZeroMeansEqual(a, b, Max(|a|, |b|));
    forall i: nat {
      CostZero(a, b, i);
    }
    assert |a| != |b| ==> Cost(a, b, Min(|a|, |b|)) != 0;
    if Distance(a, b) == 0 {
      assert |a| == |b|;
      assert forall i | 0 <= i < |a| :: Cost(a, b, i) == 0;
    }
  }

  lemma {:induction false} DistanceBound(a: seq<byte>, b: seq<byte>, n: nat)
    ensures CostBelow(a, b, n) <= 256 * n
  {
    hide Cost;
    if n > 0 {
      DistanceBound(a, b, n - 1);
    }
  }

  lemma {:induction false} LengthCost(a: seq<byte>, b: seq<byte>, n: nat)
    requires Min(|a|, |b|) <= n <= Max(|a|, |b|)
    ensures CostBelow(a, b, n) == CostBelow(a, b, Min(|a|, |b|)) + 256 * (n - Min(|a|, |b|))
    decreases n
  {
    if n > Min(|a|, |b|) {
      LengthCost(a, b, n - 1);
    }
  }

  function Saturated(n: nat): nat {
    Min(n, U64_MAX)
  }

  /** `byte_distance`: saturating 64-bit sums over the common prefix, then the lengths. */
  method ByteDistance(a: seq<byte>, b: seq<byte>) returns (d: nat)
    ensures d == Saturated(Distance(a, b))
  {
    hide IntOf;
    var common := Min(|a|, |b|);
    d := 0;
    for i := 0 to common
      invariant d == Saturated(CostBelow(a, b, i))
    {
      d := Saturated(d + Abs(IntOf(a[i]) - IntOf(b[i])));
    }
    LengthCost(a, b, Max(|a|, |b|));
    d := Saturated(d + Saturated(Abs(|a| - |b|) * 256));
  }

  // ---- Moves ----

  /** `b` is `a` changed at position i only, to agree with `c` there. */
  lemma {:induction false} AlignBelow(a: seq<byte>, c: seq<byte>, i: nat, n: nat)
    requires i < |a| && i < |c| && a[i] != c[i]
    ensures CostBelow(a[i := c[i]], c, n) == CostBelow(a, c, n) - (if i < n then Cost(a, c, i) else 0)
    ensures GapBelow(a[i := c[i]], c, n) == GapBelow(a, c, n) - (if i < n then 1 else 0)
  {
    hide IntOf;
    if n > 0 {
      AlignBelow(a, c, i, n - 1);
      CostZero(a, c, i);
      CostZero(a[i := c[i]], c, i);
    }
  }

  /** An alignment lowers the gap by one and the distance by what the position cost. */
  lemma AlignLowers(a: seq<byte>, c: seq<byte>, i: nat)
    requires i < |a| && i < |c| && a[i] != c[i]
    ensures var (x, y) := (IntOf(a[i]), IntOf(c[i]));
      Distance(a, c) - Distance(a[i := c[i]], c) == (if x < y then y - x else x - y) > 0
    ensures Gap(a[i := c[i]], c) == Gap(a, c) - 1
    ensures Distance(c, a[i := c[i]]) < Distance(c, a) && Gap(c, a[i := c[i]]) == Gap(c, a) - 1
  {
    AlignBelow(a, c, i, Max(|a|, |c|));
    CostZero(a, c, i);
    GapSymmetric(a, c);
    GapSymmetric(a[i := c[i]], c);
  }

  lemma GapSymmetric(a: seq<byte>, b: seq<byte>)
    ensures Gap(a, b) == Gap(b, a) && Distance(a, b) == Distance(b, a)
  {
    CostSymmetric(a, b, Max(|a|, |b|));
    GapBelowSymmetric(a, b, Max(|a|, |b|));
  }

  lemma {:induction false} GapBelowSymmetric(a: seq<byte>, b: seq<byte>, n: nat)
    ensures GapBelow(a, b, n) == GapBelow(b, a, n)
  {
    hide IntOf;
    if n > 0 {
      GapBelowSymmetric(a, b, n - 1);
    }
  }

  lemma {:induction false} TrimBelow(a: seq<byte>, b: seq<byte>, n: nat)
    requires |a| > |b| && n < |a|
    ensures CostBelow(a[..|a| - 1], b, n) == CostBelow(a, b, n) && GapBelow(a[..|a| - 1], b, n) == GapBelow(a, b, n)
  {
    if n > 0 {
      TrimBelow(a, b, n - 1);
    }
  }

  /** Trimming the longer side lowers the gap by one and the distance by 256. */
  lemma TrimLowers(a: seq<byte>, b: seq<byte>)
    requires |a| > |b|
    ensures var t := a[..|a| - 1];
      && Distance(t, b) == Distance(a, b) - 256 && Gap(t, b) == Gap(a, b) - 1
      && Distance(b, t) == Distance(b, a) - 256 && Gap(b, t) == Gap(b, a) - 1
  {
    TrimBelow(a, b, |a| - 1);
    GapSymmetric(a, b);
    GapSymmetric(a[..|a| - 1], b);
  }

  // ---- The search ----

  datatype PairSide = Left | Right

  datatype Error = LengthExceeded(got: nat) | VerifyFailed

  /** A pure verifier; None when an input cannot be classified. */
  type Verifier = seq<byte> -> Option<PairSide>

  /** The distinction to preserve. */
  predicate Distinct(verify: Verifier, l: seq<byte>, r: seq<byte>) {
    verify(l) == Some(Left) && verify(r) == Some(Right)
  }

  /** Some input cannot be classified. */
  ghost predicate Unclassified(verify: Verifier) {
    exists x: seq<byte> :: verify(x).None?
  }

  /** A pair test calls the verifier on the right side only after a left verdict. */
  predicate TestFails(verify: Verifier, l: seq<byte>, r: seq<byte>) {
    verify(l).None? || (verify(l) == Some(Left) && verify(r).None?)
  }

  ghost predicate NoAlignment(verify: Verifier, l: seq<byte>, r: seq<byte>, n: nat)
    requires n <= |l| && n <= |r|
  {
    forall i | 0 <= i < n && l[i] != r[i] ::
      !Distinct(verify, l[i := r[i]], r) && !Distinct(verify, l, r[i := l[i]])
  }

  /** No single remaining alignment or trim preserves the distinction. */
  ghost predicate LocallyMinimal(verify: Verifier, l: seq<byte>, r: seq<byte>) {
    && NoAlignment(verify, l, r, Min(|l|, |r|))
    && (|l| > |r| ==> !Distinct(verify, l[..|l| - 1], r))
    && (|r| > |l| ==> !Distinct(verify, l, r[..|r| - 1]))
  }

  datatype Outcome = Outcome(
    left: seq<byte>,
    right: seq<byte>,
    startDistance: nat,
    endDistance: nat,
    verifications: nat)

  /** One budgeted pair test. */
  method VerifyBudget(verify: Verifier, l: seq<byte>, r: seq<byte>, used: nat, max: nat)
      returns (result: Result<bool, Error>, used': nat)
    ensures used' == if used < max then used + 1 else used
    ensures used >= max ==> result == Ok(false)
    ensures used < max ==> (result == Err(VerifyFailed) <==> TestFails(verify, l, r))
    ensures used < max && result.Ok? ==> result.value == Distinct(verify, l, r)
    ensures result.Err? ==> Unclassified(verify)
  {
    if used >= max {
      return Ok(false), used;
    }
    used' := used + 1;
    var first := verify(l);
    if first.None? {
      return Err(VerifyFailed), used';
    }
    if first.value != Left {
      return Ok(false), used';
    }
    var second := verify(r);
    if second.None? {
      return Err(VerifyFailed), used';
    }
    result := Ok(second.value == Right);
  }

  datatype Phase = Improved(l: seq<byte>, r: seq<byte>) | Stuck | Failed

  /** What an accepted move guarantees. */
  ghost predicate AcceptedMove(verify: Verifier, l: seq<byte>, r: seq<byte>, l': seq<byte>, r': seq<byte>) {
    && Distinct(verify, l', r') && Gap(l', r') == Gap(l, r) - 1 && Distance(l', r') < Distance(l, r)
    && |l'| <= |l| && |r'| <= |r|
  }

  lemma SmallDistance(l: seq<byte>, r: seq<byte>)
    requires |l| <= MAX_INPUT_LEN && |r| <= MAX_INPUT_LEN
    ensures Distance(l, r) < U64_MAX
  {
    DistanceBound(l, r, Max(|l|, |r|));
  }

  /** The sweep over byte positions; the first move that keeps the distinction wins. */
  method AlignmentPhase(verify: Verifier, l: seq<byte>, r: seq<byte>, before: nat, used: nat, max: nat)
      returns (phase: Phase, used': nat)
    requires |l| <= MAX_INPUT_LEN && |r| <= MAX_INPUT_LEN && before == Distance(l, r) && used <= max
    ensures used <= used' <= max
    ensures phase.Improved? ==> AcceptedMove(verify, l, r, phase.l, phase.r)
    ensures phase.Stuck? && used' < max ==> NoAlignment(verify, l, r, Min(|l|, |r|))
    ensures phase.Failed? ==> Unclassified(verify)
  {
    hide Distance, Gap;
    used' := used;
    for i := 0 to Min(|l|, |r|)
      invariant used <= used' <= max
      invariant used' < max ==> NoAlignment(verify, l, r, i)
    {
      if l[i] != r[i] {
        var cand := l[i := r[i]];
        AlignLowers(l, r, i);
        SmallDistance(cand, r);
        var d := ByteDistance(cand, r);
        if d < before {
          var test;
          test, used' := VerifyBudget(verify, cand, r, used', max);
          if test.Err? {
            return Failed, used';
          }
          if test.value {
            return Improved(cand, r), used';
          }
        }
      }
      if r[i] != l[i] {
        var cand := r[i := l[i]];
        AlignLowers(r, l, i);
        SmallDistance(l, cand);
        var d := ByteDistance(l, cand);
        if d < before {
          var test;
          test, used' := VerifyBudget(verify, l, cand, used', max);
          if test.Err? {
            return Failed, used';
          }
          if test.value {
            return Improved(l, cand), used';
          }
        }
      }
    }
    phase := Stuck;
  }

  /** One attempt to trim the longer side. */
  method TrimPhase(verify: Verifier, l: seq<byte>, r: seq<byte>, before: nat, used: nat, max: nat)
      returns (phase: Phase, used': nat)
    requires |l| <= MAX_INPUT_LEN && |r| <= MAX_INPUT_LEN && before == Distance(l, r) && used <= max
    ensures used <= used' <= max
    ensures phase.Improved? ==> AcceptedMove(verify, l, r, phase.l, phase.r)
    ensures phase.Stuck? && used' < max ==>
      && (|l| > |r| ==> !Distinct(verify, l[..|l| - 1], r))
      && (|r| > |l| ==> !Distinct(verify, l, r[..|r| - 1]))
    ensures phase.Failed? ==> Unclassified(verify)
  {
    hide Distance, Gap;
    used' := used;
    if |l| == |r| {
      return Stuck, used';
    }
    var l', r' := l, r;
    if |l| > |r| {
      l' := l[..|l| - 1];
      TrimLowers(l, r);
    } else {
      r' := r[..|r| - 1];
      TrimLowers(r, l);
    }
    SmallDistance(l', r');
    var d := ByteDistance(l', r');
    if d < before {
      var test;
      test, used' := VerifyBudget(verify, l', r', used', max);
      if test.Err? {
        return Failed, used';
      }
      if test.value {
        return Improved(l', r'), used';
      }
    }
    phase := Stuck;
  }

  lemma GapRange(verify: Verifier, l: seq<byte>, r: seq<byte>)
    ensures Gap(l, r) <= Max(|l|, |r|)
    ensures Distinct(verify, l, r) ==> Gap(l, r) >= 1
  {
    DistanceIsMetric(l, r, r);
  }

  /** `minimize_pair`. `accepted` counts the accepted moves; each lowers the gap by exactly
      one, so the search always ends by convergence and never by the iteration cap. */
  method MinimizePair(left: seq<byte>, right: seq<byte>, maxVerifications: nat, verify: Verifier)
      returns (result: Result<Outcome, Error>, accepted: nat, capped: bool)
    ensures |left| > MAX_INPUT_LEN || |right| > MAX_INPUT_LEN
       <==> result == Err(LengthExceeded(Max(|left|, |right|)))
    ensures result == Err(VerifyFailed) ==> Unclassified(verify)
    ensures result.Ok? ==>
      var o := result.value;
      (o.left, o.right) == (left, right) || Distinct(verify, o.left, o.right)
    ensures result.Ok? ==>
      var o := result.value;
      && o.startDistance == Distance(left, right) && o.endDistance == Distance(o.left, o.right)
      && Gap(o.left, o.right) + accepted == Gap(left, right)
      && o.endDistance + accepted <= o.startDistance
      && o.verifications <= maxVerifications && !capped
      && (o.verifications < maxVerifications ==> LocallyMinimal(verify, o.left, o.right))
  {
    hide Distance, Gap, NoAlignment;
    accepted, capped := 0, false;
    if |left| > MAX_INPUT_LEN || |right| > MAX_INPUT_LEN {
      return Err(LengthExceeded(Max(|left|, |right|))), accepted, capped;
    }
    SmallDistance(left, right);
    GapRange(verify, left, right);
    var startDistance := ByteDistance(left, right);
    var l, r, verifications := left, right, 0;
    var maxIterations := Min(|left| + |right| + 8, MAX_ITERATIONS);
    var iteration := 0;
    capped := true;
    while iteration < maxIterations
      invariant iteration <= maxIterations && accepted == iteration && capped
      invariant |l| <= MAX_INPUT_LEN && |r| <= MAX_INPUT_LEN && verifications <= maxVerifications
      invariant if accepted == 0 then (l, r) == (left, right) else Distinct(verify, l, r)
      invariant Gap(l, r) + accepted == Gap(left, right) && Distance(l, r) + accepted <= startDistance
    {
      SmallDistance(l, r);
      var before := ByteDistance(l, r);
      var phase;
      phase, verifications := AlignmentPhase(verify, l, r, before, verifications, maxVerifications);
      if phase.Stuck? {
        phase, verifications := TrimPhase(verify, l, r, before, verifications, maxVerifications);
      }
      if phase.Failed? {
        return Err(VerifyFailed), accepted, capped;
      }
      if phase.Stuck? {
        capped := false;
        break;
      }
      l, r := phase.l, phase.r;
      accepted := accepted + 1;
      iteration := iteration + 1;
    }
    GapRange(verify, l, r);
    SmallDistance(l, r);
    var endDistance := ByteDistance(l, r);
    result := Ok(Outcome(l, r, startDistance, endDistance, verifications));
  }
}
