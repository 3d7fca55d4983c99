/**
 Polynomials over GF(2) and the serial (one bit at a time) CRC-32 register.

 A polynomial is the sequence of its coefficients, highest degree first, so a message
 in transmission order is already a polynomial and multiplying by x appends a zero.
 The module knows nothing of machine words: it is the reference that the table-driven
 code of `Crc32` is compared with.
 */
module BitPolynomial {

  type Poly = seq<bool>

  /** A CRC register: the 32 coefficients of x^31 down to x^0. */
  type Register = r: seq<bool> | |r| == 32 witness seq(32, i => false)

  function Zeros(n: nat): (r: Poly)
    ensures |r| == n && forall i | 0 <= i < n :: !r[i]
  {
    seq(n, i => false)
  }

  function Ones(n: nat): (r: Poly)
    ensures |r| == n && forall i | 0 <= i < n :: r[i]
  {
    seq(n, i => true)
  }

  function Xor(a: Poly, b: Poly): (r: Poly)
    requires |a| == |b|
    ensures |r| == |a| && forall i | 0 <= i < |a| :: r[i] == (a[i] != b[i])
  {
    seq(|a|, i requires 0 <= i < |a| => a[i] != b[i])
  }

  function Not(a: Poly): (r: Poly)
    ensures |r| == |a| && forall i | 0 <= i < |a| :: r[i] == !a[i]
  {
    seq(|a|, i requires 0 <= i < |a| => !a[i])
  }

  /** The terms below x^32 of the IEEE 802.3 generator. */
  const GENERATOR_TERMS: set<int> := {26, 23, 22, 16, 12, 11, 10, 8, 7, 5, 4, 2, 1, 0}

  function GeneratorLow(): (r: Register)
    ensures r[31]
  {
    seq(32, i requires 0 <= i < 32 => 31 - i in GENERATOR_TERMS)
  }

  /** The whole generator, x^32 included. */
  function Generator(): (r: Poly)
    ensures |r| == 33
  {
    [true] + GeneratorLow()
  }

  /** One row of a long multiplication or division: the generator times `t` times x^n. */
  function Row(t: bool, n: nat): (r: Poly)
    ensures |r| == n + 33
  {
    if t then Generator() + Zeros(n) else Zeros(n + 33)
  }

  /** Schoolbook multiplication of `q` by the generator. */
  function TimesGenerator(q: Poly): (r: Poly)
    ensures |r| == |q| + 32
  {
    if q == [] then Zeros(32)
    else Xor(Row(q[0], |q| - 1), [false] + TimesGenerator(q[1..]))
  }

  /** One shift of the register, subtracting the generator when x^32 appears. */
  function Shift(r: Register): Register {
    var shifted := r[1..] + [false];
    if r[0] then Xor(shifted, GeneratorLow()) else shifted
  }

  function Shifts(r: Register, n: nat): Register
    decreases n
  {
    if n == 0 then r else Shifts(Shift(r), n - 1)
  }

  function FeedBit(r: Register, bit: bool): Register {
    Shift(r[0 := r[0] != bit])
  }

  function Feed(r: Register, bits: seq<bool>): Register
    decreases |bits|
  {
    if bits == [] then r else Feed(FeedBit(r, bits[0]), bits[1..])
  }

  /** The quotient bits the register produces while the message is fed. */
  function Quotient(r: Register, bits: seq<bool>): (q: Poly)
    ensures |q| == |bits|
    decreases |bits|
  {
    if bits == [] then [] else [r[0] != bits[0]] + Quotient(FeedBit(r, bits[0]), bits[1..])
  }

  /** What clause 3.2.9 of IEEE Std 802.3 divides: the message times x^32, plus the
      initial register aligned with the first 32 message bits. For an all-ones register
      this complements the first 32 bits of the message. */
  function Dividend(r: Register, bits: seq<bool>): (d: Poly)
    ensures |d| == |bits| + 32
  {
    Xor(r + Zeros(|bits|), bits + Zeros(32))
  }

  /** Feeding a message is long division: dividend == quotient * generator + register. */
  lemma {:induction false} FeedDivides(r: Register, bits: seq<bool>)
    ensures Dividend(r, bits)
         == Xor(TimesGenerator(Quotient(r, bits)), Zeros(|bits|) + Feed(r, bits))
    decreases |bits|
  {
    if bits != [] {
      var t, r', rest := r[0] != bits[0], FeedBit(r, bits[0]), bits[1..];
      FeedDivides(r', rest);
      var q' := Quotient(r', rest);
      assert Quotient(r, bits)[1..] == q';
      DivisionStep(r, bits, q', Feed(r', rest));
    }
  }

  /** One row of the long division, with `q` and `remainder` those of the rows below. */
  lemma DivisionStep(r: Register, bits: seq<bool>, q: Poly, remainder: Register)
    requires bits != [] && |q| == |bits| - 1
    requires Dividend(FeedBit(r, bits[0]), bits[1..]) == Xor(TimesGenerator(q), Zeros(|q|) + remainder)
    ensures Dividend(r, bits)
         == Xor(TimesGenerator([r[0] != bits[0]] + q), Zeros(|bits|) + remainder)
  {
    var t := r[0] != bits[0];
    DividendStep(r, bits);
    TimesGeneratorCons(t, q);
    ZerosCons(|q|, remainder);
    XorRow(Row(t, |q|), TimesGenerator(q), Zeros(|q|) + remainder);
  }

  lemma TimesGeneratorCons(t: bool, q: Poly)
    ensures TimesGenerator([t] + q) == Xor(Row(t, |q|), [false] + TimesGenerator(q))
  {
    assert ([t] + q)[1..] == q;
  }

  lemma ZerosCons(n: nat, p: Poly)
    ensures Zeros(n + 1) + p == [false] + (Zeros(n) + p)
  {
  }

  lemma XorRow(row: Poly, a: Poly, b: Poly)
    requires |row| == |a| + 1 == |b| + 1
    ensures Xor(row, [false] + Xor(a, b)) == Xor(Xor(row, [false] + a), [false] + b)
  {
  }

  lemma DividendStep(r: Register, bits: seq<bool>)
    requires bits != []
    ensures Dividend(r, bits) ==
      Xor(Row(r[0] != bits[0], |bits| - 1), [false] + Dividend(FeedBit(r, bits[0]), bits[1..]))
  {
    var t, r', n := r[0] != bits[0], FeedBit(r, bits[0]), |bits|;
    var low := if t then GeneratorLow() else Zeros(32);
    assert r' == Xor(r[1..] + [false], low);
    var lhs := Dividend(r, bits);
    var rhs := Xor(Row(t, n - 1), [false] + Dividend(r', bits[1..]));
    forall k | 0 < k < |lhs| ensures lhs[k] == rhs[k] {
      assert (r + Zeros(n))[k] == ((r[1..] + [false]) + Zeros(n - 1))[k - 1];
      assert (bits + Zeros(32))[k] == (bits[1..] + Zeros(32))[k - 1];
      assert (r' + Zeros(n - 1))[k - 1]
          == (((r[1..] + [false]) + Zeros(n - 1))[k - 1] != (low + Zeros(n - 1))[k - 1]);
      assert t ==> (Generator() + Zeros(n - 1))[k] == (low + Zeros(n - 1))[k - 1];
    }
  }

  /** A multiple of the generator whose 32 low terms are all it has is zero. */
  lemma {:induction false} MultipleOfLowDegreeIsZero(q: Poly)
    requires forall i | 0 <= i < |q| :: !TimesGenerator(q)[i]
    ensures TimesGenerator(q) == Zeros(|q| + 32)
  {
    if q != [] {
      var rest := TimesGenerator(q[1..]);
      assert !TimesGenerator(q)[0];
      assert !q[0];
      forall i | 0 <= i < |q[1..]| ensures !rest[i] {
        assert !TimesGenerator(q)[i + 1];
      }
      MultipleOfLowDegreeIsZero(q[1..]);
    }
  }

  lemma {:induction false} TimesGeneratorAdds(p: Poly, q: Poly)
    requires |p| == |q|
    ensures TimesGenerator(Xor(p, q)) == Xor(TimesGenerator(p), TimesGenerator(q))
  {
    if p != [] {
      hide Row, Xor;
      var n := |p| - 1;
      TimesGeneratorAdds(p[1..], q[1..]);
      assert Xor(p, q)[1..] == Xor(p[1..], q[1..]);
      RowsAdd(p[0], q[0], n, TimesGenerator(p[1..]), TimesGenerator(q[1..]));
    }
  }

  lemma RowsAdd(s: bool, t: bool, n: nat, a: Poly, b: Poly)
    requires |a| == |b| == n + 32
    ensures Xor(Row(s != t, n), [false] + Xor(a, b)) == Xor(Xor(Row(s, n), [false] + a), Xor(Row(t, n), [false] + b))
  {
  }

  /** The remainder is unique, so `Feed` computes THE remainder of the division. */
  lemma RemainderIsUnique(d: Poly, q1: Poly, r1: Register, q2: Poly, r2: Register)
    requires |q1| == |q2| && |d| == |q1| + 32
    requires d == Xor(TimesGenerator(q1), Zeros(|q1|) + r1)
    requires d == Xor(TimesGenerator(q2), Zeros(|q2|) + r2)
    ensures r1 == r2
  {
    hide TimesGenerator, Zeros;
    var z := Zeros(|q1|);
    TimesGeneratorAdds(q1, q2);
    XorCancel(TimesGenerator(q1), z + r1, TimesGenerator(q2), z + r2);
    assert TimesGenerator(Xor(q1, q2)) == Xor(z + r1, z + r2);
    MultipleOfLowDegreeIsZero(Xor(q1, q2));
    forall i | 0 <= i < 32 ensures r1[i] == r2[i] {
      assert !Xor(z + r1, z + r2)[|q1| + i];
    }
  }

  lemma XorCancel(a: Poly, b: Poly, c: Poly, d: Poly)
    requires |a| == |b| == |c| == |d| && Xor(a, b) == Xor(c, d)
    ensures Xor(a, c) == Xor(b, d)
  {
    forall i | 0 <= i < |a| ensures Xor(a, c)[i] == Xor(b, d)[i] {
      assert Xor(a, b)[i] == Xor(c, d)[i];
    }
  }

  // ---- The register as a linear, reversible machine ----

  lemma ShiftAdds(a: Register, b: Register)
    ensures Shift(Xor(a, b)) == Xor(Shift(a), Shift(b))
  {
  }

  lemma {:induction false} ShiftsAdd(a: Register, b: Register, n: nat)
    ensures Shifts(Xor(a, b), n) == Xor(Shifts(a, n), Shifts(b, n))
    decreases n
  {
    hide Shift, Xor;
    if n > 0 {
      ShiftAdds(a, b);
      ShiftsAdd(Shift(a), Shift(b), n - 1);
    }
  }

  lemma {:induction false} FeedConcat(r: Register, a: seq<bool>, b: seq<bool>)
    ensures Feed(r, a + b) == Feed(Feed(r, a), b)
    decreases |a|
  {
    hide FeedBit;
    if a == [] {
      assert a + b == b;
    } else {
      assert (a + b)[1..] == a[1..] + b;
      FeedConcat(FeedBit(r, a[0]), a[1..], b);
    }
  }

  /** Feeding at most 32 bits is adding them to the register first and shifting afterwards. */
  lemma {:induction false} FeedIsAddThenShift(r: Register, w: seq<bool>)
    requires |w| <= 32
    ensures Feed(r, w) == Shifts(Xor(r, w + Zeros(32 - |w|)), |w|)
    decreases |w|
  {
    hide Shift, FeedBit, Xor, Zeros;
    if w == [] {
      assert Xor(r, w + Zeros(32)) == r;
    } else {
      FeedIsAddThenShift(FeedBit(r, w[0]), w[1..]);
      AddBeforeShift(r, w);
    }
  }

  lemma AddBeforeShift(r: Register, w: seq<bool>)
    requires 0 < |w| <= 32
    ensures Shift(Xor(r, w + Zeros(32 - |w|))) == Xor(FeedBit(r, w[0]), w[1..] + Zeros(33 - |w|))
  {
    var r', tail := r[0 := r[0] != w[0]], [false] + w[1..] + Zeros(32 - |w|);
    assert Xor(r, w + Zeros(32 - |w|)) == Xor(r', tail);
    ShiftAdds(r', tail);
    assert Shift(tail) == w[1..] + Zeros(33 - |w|);
  }

  /** No information is lost by a shift: the generator ends in 1. */
  lemma ShiftInjective(a: Register, b: Register)
    requires Shift(a) == Shift(b)
    ensures a == b
  {
    assert Shift(a)[31] == a[0] && Shift(b)[31] == b[0];
    forall i | 1 <= i < 32 ensures a[i] == b[i] {
      assert Shift(a)[i - 1] == Shift(b)[i - 1];
    }
  }

  lemma {:induction false} ShiftsInjective(a: Register, b: Register, n: nat)
    requires Shifts(a, n) == Shifts(b, n)
    ensures a == b
    decreases n
  {
    hide Shift;
    if n > 0 {
      ShiftsInjective(Shift(a), Shift(b), n - 1);
      ShiftInjective(a, b);
    }
  }

  lemma {:induction false} FeedInjective(a: Register, b: Register, bits: seq<bool>)
    requires Feed(a, bits) == Feed(b, bits)
    ensures a == b
    decreases |bits|
  {
    hide Shift;
    if bits != [] {
      FeedInjective(FeedBit(a, bits[0]), FeedBit(b, bits[0]), bits[1..]);
      var a', b' := a[0 := a[0] != bits[0]], b[0 := b[0] != bits[0]];
      ShiftInjective(a', b');
      assert a == a'[0 := a'[0] != bits[0]] == b'[0 := b'[0] != bits[0]] == b;
    }
  }

  /** A burst confined to 32 consecutive bits, anywhere in the message, always changes the
      register. */
  lemma BurstChangesRegister(r: Register, before: seq<bool>, v: seq<bool>, w: seq<bool>, after: seq<bool>)
    requires |v| == |w| <= 32 && v != w
    ensures Feed(r, before + v + after) != Feed(r, before + w + after)
  {
    hide *;
    var s := Feed(r, before);
    FeedThree(r, before, v, after);
    FeedThree(r, before, w, after);
    ShortFeedInjective(s, v, w);
    if Feed(Feed(s, v), after) == Feed(Feed(s, w), after) {
      FeedInjective(Feed(s, v), Feed(s, w), after);
    }
  }

  lemma FeedThree(r: Register, a: seq<bool>, b: seq<bool>, c: seq<bool>)
    ensures Feed(r, a + b + c) == Feed(Feed(Feed(r, a), b), c)
  {
    hide *;
    FeedConcat(r, a + b, c);
    FeedConcat(r, a, b);
  }

  /** From one register, different inputs of at most 32 bits lead to different registers. */
  lemma ShortFeedInjective(r: Register, v: seq<bool>, w: seq<bool>)
    requires |v| == |w| <= 32 && v != w
    ensures Feed(r, v) != Feed(r, w)
  {
    hide *;
    var pad := Zeros(32 - |v|);
    FeedIsAddThenShift(r, v);
    FeedIsAddThenShift(r, w);
    var i :| 0 <= i < |v| && v[i] != w[i];
    assert Xor(r, v + pad)[i] != Xor(r, w + pad)[i];
    if Feed(r, v) == Feed(r, w) {
      ShiftsInjective(Xor(r, v + pad), Xor(r, w + pad), |v|);
    }
  }

  /** The register left by any message followed by its own check bits. */
  const RESIDUE: Register := Shifts(Ones(32), 32)

  /** A message followed by 32 check bits leaves `RESIDUE` exactly when the check bits are
      the complement of the message's remainder. */
  lemma ResidueCharacterizesCheckBits(r: Register, message: seq<bool>, check: Register)
    ensures Feed(r, message + check) == RESIDUE <==> check == Not(Feed(r, message))
  {
    hide Feed, Shifts, Xor, Zeros, Ones, Not;
    FeedConcat(r, message, check);
    var s := Feed(r, message);
    FeedIsAddThenShift(s, check);
    assert check + Zeros(0) == check;
    if check == Not(s) {
      assert Xor(s, check) == Ones(32);
    }
    if Feed(r, message + check) == RESIDUE {
      ShiftsInjective(Xor(s, check), Ones(32), 32);
      forall i | 0 <= i < 32 ensures check[i] == !s[i] {
        assert Xor(s, check)[i];
      }
    }
  }
}
