/**
 Per-trial seeds: splitmix64 over the base seed and the trial number. 64-bit words are
 numbers below 2^64, with wrapping written out as a remainder and xor defined bit by bit.
 */
module Seeds {
  import opened Arithmetic
  import opened Words

  const M64: nat := 0x1_0000_0000_0000_0000
  const GOLDEN: nat := 0x9E37_79B9_7F4A_7C15

  function Xor(a: nat, b: nat): (r: nat)
    decreases a + b
  {
    if a == 0 && b == 0 then 0 else 2 * Xor(a / 2, b / 2) + (a + b) % 2
  }

  /** `a >> n`. */
  function ShiftRight(a: nat, n: nat): (r: nat)
    ensures r <= a
    decreases n
  {
    if n == 0 then a else ShiftRight(a / 2, n - 1)
  }

  lemma {:induction false} XorBound(a: nat, b: nat, k: nat)
    requires a < Pow2(k) && b < Pow2(k)
    ensures Xor(a, b) < Pow2(k)
    decreases k
  {
    if k > 0 && (a != 0 || b != 0) {
      XorBound(a / 2, b / 2, k - 1);
    }
  }

  function XorShift(x: u64, n: nat): u64 {
    Pow2Values();
    XorBound(x, ShiftRight(x, n), 64);
    Xor(x, ShiftRight(x, n))
  }

  function WrappingMul(x: int, c: int): u64 {
    x * c % M64
  }

  function WrappingAdd(x: int, y: int): u64 {
    (x + y) % M64
  }

  /** The splitmix64 output function. */
  function Mix(x: u64): u64 {
    var y := WrappingMul(XorShift(x, 30), 0xBF58_476D_1CE4_E5B9);
    var z := WrappingMul(XorShift(y, 27), 0x94D0_49BB_1331_11EB);
    XorShift(z, 31)
  }

  /** `trial_seed`. */
  function TrialSeed(base: u64, trial: u32): u64 {
    Mix(WrappingAdd(WrappingAdd(base, WrappingMul(trial, GOLDEN)), 0xD1B5_4A32_D192_ED03))
  }

  // ---- Each stage loses nothing ----

  /** x ^ (x >> n) determines x: from the top bit down, each bit follows from those above. */
  lemma {:induction false} XorShiftInjective(x: nat, y: nat, n: nat)
    requires n > 0 && Xor(x, ShiftRight(x, n)) == Xor(y, ShiftRight(y, n))
    ensures x == y
    decreases x + y
  {
    if x + y > 0 {
      Unfold(x, n);
      Unfold(y, n);
      XorShiftInjective(x / 2, y / 2, n);
      assert ShiftRight(x, n) == ShiftRight(y, n);
      ParityFromXor(x, y, ShiftRight(x, n));
    }
  }

  /** Dropping the low bit of x ^ (x >> n) is doing the same to x. */
  lemma Unfold(x: nat, n: nat)
    requires n > 0
    ensures Xor(x, ShiftRight(x, n)) / 2 == Xor(x / 2, ShiftRight(x / 2, n))
    ensures Xor(x, ShiftRight(x, n)) % 2 == (x + ShiftRight(x, n)) % 2
  {
    ShiftHalf(x, n);
    assert Xor(0, 0) == 0;
  }

  lemma {:induction false} ShiftHalf(x: nat, n: nat)
    ensures ShiftRight(x, n) / 2 == ShiftRight(x / 2, n)
    decreases n
  {
    if n > 0 {
      ShiftHalf(x / 2, n - 1);
    }
  }

  lemma ParityFromXor(x: nat, y: nat, c: nat)
    requires (x + c) % 2 == (y + c) % 2 && x / 2 == y / 2
    ensures x == y
  {
  }

  /** A factor with an inverse modulo 2^64 can be undone. */
  lemma MulUndone(x: u64, c: nat, inverse: nat, k: nat)
    requires c * inverse == 1 + k * M64
    ensures WrappingMul(WrappingMul(x, c), inverse) == x
  {
    var q, p := x * c / M64, WrappingMul(x, c);
    assert p == x * c - q * M64;
    Reassociate(x, c, inverse, k, q);
    ModUnique(p * inverse, x, x * k - q * inverse, M64);
  }

  lemma Reassociate(x: int, c: int, inverse: int, k: int, q: int)
    requires c * inverse == 1 + k * M64
    ensures (x * c - q * M64) * inverse == x + (x * k - q * inverse) * M64
  {
    assert (x * c - q * M64) * inverse == x * (c * inverse) - (q * inverse) * M64;
    assert x * (1 + k * M64) == x + (x * k) * M64;
  }

  lemma MulInjective(x: u64, y: u64, c: nat, inverse: nat, k: nat)
    requires c * inverse == 1 + k * M64 && WrappingMul(x, c) == WrappingMul(y, c)
    ensures x == y
  {
    MulUndone(x, c, inverse, k);
    MulUndone(y, c, inverse, k);
  }

  lemma AddInjective(x: u64, y: u64, c: int)
    requires WrappingAdd(x, c) == WrappingAdd(y, c)
    ensures x == y
  {
  }

  /** `Mix` is one-to-one on 64-bit words. */
  lemma MixInjective(x: u64, y: u64)
    ensures Mix(x) == Mix(y) <==> x == y
  {
    if Mix(x) == Mix(y) {
      MixUndone(x, y);
    }
  }

  lemma MixUndone(x: u64, y: u64)
    requires Mix(x) == Mix(y)
    ensures x == y
  {
    hide WrappingMul, Xor, ShiftRight;
    var x1, y1 := XorShift(x, 30), XorShift(y, 30);
    var x2, y2 := WrappingMul(x1, 0xBF58_476D_1CE4_E5B9), WrappingMul(y1, 0xBF58_476D_1CE4_E5B9);
    var x3, y3 := XorShift(x2, 27), XorShift(y2, 27);
    var x4, y4 := WrappingMul(x3, 0x94D0_49BB_1331_11EB), WrappingMul(y3, 0x94D0_49BB_1331_11EB);
    XorShiftInjective(x4, y4, 31);
    MulInjective(x3, y3, 0x94D0_49BB_1331_11EB, 0x3196_42B2_D24D_8EC3, K27);
    XorShiftInjective(x2, y2, 27);
    MulInjective(x1, y1, 0xBF58_476D_1CE4_E5B9, 0x96DE_1B17_3F11_9089, K30);
    XorShiftInjective(x, y, 30);
  }

  const K27: nat := 0x94D0_49BB_1331_11EB * 0x3196_42B2_D24D_8EC3 / M64
  const K30: nat := 0xBF58_476D_1CE4_E5B9 * 0x96DE_1B17_3F11_9089 / M64
  const KGOLDEN: nat := GOLDEN * 0xF1DE_83E1_9937_733D / M64

  /** Main result: exactly when two seeds coincide. */
  lemma SeedsCoincide(b: u64, s: u32, c: u64, t: u32)
    ensures TrialSeed(b, s) == TrialSeed(c, t)
       <==> WrappingAdd(b, WrappingMul(s, GOLDEN)) == WrappingAdd(c, WrappingMul(t, GOLDEN))
  {
    hide Mix, WrappingMul;
    var x, y := WrappingAdd(b, WrappingMul(s, GOLDEN)), WrappingAdd(c, WrappingMul(t, GOLDEN));
    if TrialSeed(b, s) == TrialSeed(c, t) {
      MixInjective(WrappingAdd(x, 0xD1B5_4A32_D192_ED03), WrappingAdd(y, 0xD1B5_4A32_D192_ED03));
      AddInjective(x, y, 0xD1B5_4A32_D192_ED03);
    }
  }

  /** Trials of one experiment never share a seed, over all 2^32 trial numbers. */
  lemma TrialsNeverCollide(base: u64, s: u32, t: u32)
    ensures TrialSeed(base, s) == TrialSeed(base, t) <==> s == t
  {
    hide TrialSeed, WrappingMul;
    if TrialSeed(base, s) == TrialSeed(base, t) {
      SeedsCoincide(base, s, base, t);
      AddInjectiveRight(base, WrappingMul(s, GOLDEN), WrappingMul(t, GOLDEN));
      MulInjective(s, t, GOLDEN, 0xF1DE_83E1_9937_733D, KGOLDEN);
    }
  }

  lemma AddInjectiveRight(c: u64, x: u64, y: u64)
    requires WrappingAdd(c, x) == WrappingAdd(c, y)
    ensures x == y
  {
  }

  /** For one trial number, different base seeds give different seeds. */
  lemma BasesNeverCollide(b: u64, c: u64, trial: u32)
    ensures TrialSeed(b, trial) == TrialSeed(c, trial) <==> b == c
  {
    hide TrialSeed, WrappingMul;
    if TrialSeed(b, trial) == TrialSeed(c, trial) {
      SeedsCoincide(b, trial, c, trial);
      AddInjective(b, c, WrappingMul(trial, GOLDEN));
    }
  }

  /** Across experiments seeds can coincide: a base larger by the golden-ratio constant is
      one trial ahead. */
  lemma ShiftedBaseSharesSeeds(base: u64, trial: u32)
    requires trial + 1 < 0x1_0000_0000
    ensures TrialSeed(WrappingAdd(base, GOLDEN), trial) == TrialSeed(base, trial + 1)
  {
    hide TrialSeed;
    SeedsCoincide(WrappingAdd(base, GOLDEN), trial, base, trial + 1);
    Distribute(trial, 1, GOLDEN);
    Rebase(base, GOLDEN, trial * GOLDEN);
  }

  lemma Rebase(b: u64, g: nat, p: nat)
    ensures ((b + g) % M64 + p % M64) % M64 == (b + (p + g) % M64) % M64
  {
    AddMod(b + g, p);
    AddMod(b, p + g);
    assert b + g + p == b + (p + g);
  }

  lemma AddMod(a: nat, b: nat)
    ensures (a % M64 + b % M64) % M64 == (a + b) % M64
  {
    var x, y := a / M64, b / M64;
    var r := (a % M64 + b % M64) % M64;
    var w := (a % M64 + b % M64) / M64;
    ModUnique(a + b, r, x + y + w, M64);
  }
}
