/**
 Recorded observations, the exact per-signal difference of two of them, and the logarithmic buckets.
 A 64-bit mask of signals is a set of signal numbers.
 */
module Signals {
  import opened Arithmetic
  import opened Words

  const AXES: nat := 64

  type Axis = i: nat | i < AXES
  type Values = s: seq<u64> | |s| == AXES witness seq(AXES, i => 0)

  datatype SignalVector = SignalVector(values: Values, touched: set<Axis>)

  /** The value an observation contributes to a difference: an untouched signal counts as 0. */
  function Reading(v: SignalVector, i: Axis): u64 {
    if i in v.touched then v.values[i] else 0
  }

  /** child - parent, clamped to 64 bits. */
  function Difference(parent: SignalVector, child: SignalVector, i: Axis): i64 {
    ToI64(Reading(child, i) - Reading(parent, i))
  }

  /** The difference of one corpus edge. */
  datatype Residual = Residual(parent: SignalVector, child: SignalVector)
  {
    function Delta(i: Axis): i64 {
      Difference(parent, child, i)
    }

    function TouchedNew(): set<Axis> {
      child.touched - parent.touched
    }

    function TouchedLost(): set<Axis> {
      parent.touched - child.touched
    }
  }

  /** The sign of a difference is the true one, however large the two readings are, and the difference is exact
      whenever it fits in 64 signed bits; otherwise it is the nearest number that does. A touched signal reads as its
      value, an untouched one as 0. */
  lemma DeltaSign(r: Residual, i: Axis)
    ensures r.Delta(i) > 0 <==> Reading(r.child, i) > Reading(r.parent, i)
    ensures r.Delta(i) == 0 <==> Reading(r.child, i) == Reading(r.parent, i)
    ensures var before, after := if i in r.parent.touched then r.parent.values[i] else 0,
                                 if i in r.child.touched then r.child.values[i] else 0;
      && (-TWO_63 <= after - before < TWO_63 ==> r.Delta(i) as int == after - before)
      && (after - before >= TWO_63 ==> r.Delta(i) == 0x7FFF_FFFF_FFFF_FFFF)
      && (after - before < -TWO_63 ==> r.Delta(i) == -0x8000_0000_0000_0000)
  {
  }

  // ---- Buckets ----

  function Log2(n: nat): nat
    requires n > 0
  {
    if n == 1 then 0 else 1 + Log2(n / 2)
  }

  function MagnitudeBucket(m: u64): u8 {
    if m == 0 then 0 else
      LogIsBounded(m);
      if Log2(m) + 1 > 63 then 63 else Log2(m) + 1
  }

  function ValueBucket(v: u64): u8 {
    if v < 64 then v
    else if v < 4096 then 64 + v / 64
    else
      LogIsBounded(v / 4096);
      128 + Log2(v / 4096)
  }

  lemma {:induction false} LogBrackets(n: nat)
    requires n > 0
    ensures Pow2(Log2(n)) <= n < Pow2(Log2(n) + 1)
  {
    if n > 1 { LogBrackets(n / 2); }
  }

  lemma LogIsBounded(n: nat)
    requires 0 < n < TWO_64
    ensures Log2(n) < 64 && (n < 0x10_0000_0000_0000 ==> Log2(n) < 52)
  {
    hide Pow2, Log2;
    LogBrackets(n);
    Pow2Values();
    Pow2Of52();
    if Log2(n) >= 64 {
      Pow2Grows(64, Log2(n));
    }
    if Log2(n) >= 52 {
      Pow2Grows(52, Log2(n));
    }
  }

  lemma Pow2Of52()
    ensures Pow2(52) == 0x10_0000_0000_0000
  {
    Pow2Adds(13, 13);
    Pow2Adds(26, 26);
    assert Pow2(13) == 0x2000;
  }

  lemma {:induction false} LogMonotone(m: nat, n: nat)
    requires 0 < m <= n
    ensures Log2(m) <= Log2(n)
  {
    if m > 1 { LogMonotone(m / 2, n / 2); }
  }

  /** Below the cap, a magnitude bucket is one power-of-two interval, and no larger magnitude has a smaller bucket. */
  lemma MagnitudeBucketLaw(m: u64, n: u64)
    ensures MagnitudeBucket(m) == 0 <==> m == 0
    ensures 0 < MagnitudeBucket(m) < 63 ==> Pow2(MagnitudeBucket(m) - 1) <= m < Pow2(MagnitudeBucket(m))
    ensures MagnitudeBucket(m) == 63 <==> m >= Pow2(62)
    ensures m <= n ==> MagnitudeBucket(m) <= MagnitudeBucket(n)
  {
    Pow2Values();
    if m > 0 {
      LogBrackets(m);
      if m <= n { LogMonotone(m, n); }
      if Log2(m) < 62 { Pow2Grows(Log2(m) + 1, 62); } else { Pow2Grows(62, Log2(m)); }
    }
  }

  /** Value buckets are monotone, exact below 64, 64 values wide below 4096, one power-of-two interval from there on,
      at most 179, and never 64. */
  lemma ValueBucketLaw(v: u64, w: u64)
    ensures v <= w ==> ValueBucket(v) <= ValueBucket(w)
    ensures ValueBucket(v) <= 179 && ValueBucket(v) != 64
    ensures v < 64 <==> ValueBucket(v) < 64
    ensures v < 64 ==> ValueBucket(v) == v
    ensures var b := ValueBucket(v);
      && (64 < b < 128 ==> 64 * (b - 64) <= v < 64 * (b - 63))
      && (128 <= b ==> 4096 * Pow2(b - 128) <= v < 4096 * Pow2(b - 127))
  {
    if v >= 4096 {
      LogIsBounded(v / 4096);
      LogBrackets(v / 4096);
      if v <= w { LogMonotone(v / 4096, w / 4096); }
    }
    if w >= 4096 { LogIsBounded(w / 4096); }
  }
}
