/**
 CRC-32 as computed by the coordinator-worker protocol and the crash ledger: a 256-entry
 table and one table step per byte. The specification `Crc` shifts one bit at a time;
 `CrcIsPolynomialRemainder` ties it to polynomial division.
 */
module Crc32 {
  import opened BitPolynomial
  import opened Bytes

  /** The generator's low terms, reflected: bit i is the coefficient of x^(31 - i). */
  const POLYNOMIAL: bv32 := 0xEDB8_8320
  const ALL_ONES: bv32 := 0xFFFF_FFFF

  function BitStep(c: bv32): bv32 {
    if c & 1 != 0 then (c >> 1) ^ POLYNOMIAL else c >> 1
  }

  function BitSteps(c: bv32, n: nat): bv32
    decreases n
  {
    if n == 0 then c else BitStep(BitSteps(c, n - 1))
  }

  function UpdateByte(c: bv32, b: byte): bv32 {
    BitSteps(c ^ (b as bv32), 8)
  }

  /** The register after feeding `bytes`, bit by bit. */
  function Update(c: bv32, bytes: seq<byte>): bv32 {
    if bytes == [] then c
    else UpdateByte(Update(c, bytes[..|bytes| - 1]), bytes[|bytes| - 1])
  }

  function Crc(bytes: seq<byte>): bv32 {
    !Update(ALL_ONES, bytes)
  }

  // ---- Words as registers ----

  function Low(c: bv32): bool {
    c & 1 != 0
  }

  function ByteAt(c: bv32): byte {
    (c & 0xFF) as byte
  }

  function NextByte(c: bv32): bv32 {
    c >> 8
  }

  function Half(c: bv32): bv32 {
    c >> 1
  }

  /** The low n bits of a word, least significant (= highest power of x) first. */
  function LowBits(c: bv32, n: nat): (r: seq<bool>)
    ensures |r| == n
    decreases n
  {
    if n == 0 then [] else [Low(c)] + LowBits(Half(c), n - 1)
  }

  function Bits(c: bv32): Register {
    LowBits(c, 32)
  }

  function ByteBits(b: byte): (r: seq<bool>)
    ensures |r| == 8
  {
    LowBits(b as bv32, 8)
  }

  /** The bits of a byte string in transmission order: each byte low bit first. */
  function MessageBits(bytes: seq<byte>): (r: seq<bool>)
    ensures |r| == 8 * |bytes|
  {
    if bytes == [] then [] else MessageBits(bytes[..|bytes| - 1]) + ByteBits(bytes[|bytes| - 1])
  }

  function Halves(c: bv32, n: nat): bv32
    decreases n
  {
    if n == 0 then c else Halves(Half(c), n - 1)
  }

  lemma {:induction false} HalvesAdds(c: bv32, m: nat, n: nat)
    ensures Halves(c, m + n) == Halves(Halves(c, m), n)
    decreases m
  {
    if m > 0 {
      HalvesAdds(Half(c), m - 1, n);
    }
  }

  lemma Halves4(c: bv32)
    ensures Halves(c, 4) == c >> 4
  {
    assert Halves(c, 4) == c >> 1 >> 1 >> 1 >> 1;
  }

  lemma Halves8(c: bv32)
    ensures Halves(c, 8) == NextByte(c)
  {
    assert Halves(c, 8) == c >> 1 >> 1 >> 1 >> 1 >> 1 >> 1 >> 1 >> 1;
  }

  lemma HalvesTwice(c: bv32, n: nat)
    ensures Halves(c, n + n) == Halves(Halves(c, n), n)
  {
    HalvesAdds(c, n, n);
  }

  lemma HalvesFourTimes(c: bv32, n: nat)
    ensures Halves(c, n + n + n + n) == Halves(Halves(Halves(Halves(c, n), n), n), n)
  {
    HalvesAdds(c, n, n + n + n);
    HalvesAdds(Halves(c, n), n, n + n);
    HalvesTwice(Halves(Halves(c, n), n), n);
  }

  lemma Halves32(c: bv32)
    ensures Halves(c, 32) == 0
  {
    HalvesFourTimes(c, 8);
    Halves8(c);
    Halves8(NextByte(c));
    Halves8(NextByte(NextByte(c)));
    Halves8(NextByte(NextByte(NextByte(c))));
  }

  lemma {:induction false} LowBitsSplit(c: bv32, m: nat, n: nat)
    ensures LowBits(c, m + n) == LowBits(c, m) + LowBits(Halves(c, m), n)
    decreases m
  {
    if m > 0 {
      LowBitsSplit(Half(c), m - 1, n);
    }
  }

  function Plus(a: bv32, b: bv32): bv32 {
    a ^ b
  }

  lemma HalfPlus(a: bv32, b: bv32)
    ensures Half(Plus(a, b)) == Plus(Half(a), Half(b))
  {
  }

  lemma LowPlus(a: bv32, b: bv32)
    ensures Low(Plus(a, b)) == (Low(a) != Low(b))
  {
  }

  lemma XorCons(x: bool, xs: seq<bool>, y: bool, ys: seq<bool>)
    requires |xs| == |ys|
    ensures Xor([x] + xs, [y] + ys) == [x != y] + Xor(xs, ys)
  {
  }

  lemma {:induction false} LowBitsPlus(a: bv32, b: bv32, n: nat)
    ensures LowBits(Plus(a, b), n) == Xor(LowBits(a, n), LowBits(b, n))
    decreases n
  {
    hide Plus, Half, Low, Xor;
    if n > 0 {
      HalfPlus(a, b);
      LowPlus(a, b);
      LowBitsPlus(Half(a), Half(b), n - 1);
      XorCons(Low(a), LowBits(Half(a), n - 1), Low(b), LowBits(Half(b), n - 1));
    }
  }

  lemma BitsPlus(a: bv32, b: bv32)
    ensures Bits(Plus(a, b)) == Xor(Bits(a), Bits(b))
  {
    LowBitsPlus(a, b, 32);
  }

  /** A word's bits, byte by byte. */
  lemma LowBitsInFour(c: bv32, n: nat)
    ensures LowBits(c, n + n + n + n)
         == LowBits(c, n) + LowBits(Halves(c, n), n) + LowBits(Halves(Halves(c, n), n), n)
          + LowBits(Halves(Halves(Halves(c, n), n), n), n)
  {
    hide *;
    LowBitsSplit(c, n, n + n + n);
    LowBitsSplit(Halves(c, n), n, n + n);
    LowBitsSplit(Halves(Halves(c, n), n), n, n);
  }

  lemma LowBits4(c: bv32)
    ensures LowBits(c, 4) == [c & 1 != 0, c & 2 != 0, c & 4 != 0, c & 8 != 0]
  {
  }

  lemma LowBits8(c: bv32)
    ensures LowBits(c, 8) == [c & 1 != 0, c & 2 != 0, c & 4 != 0, c & 8 != 0]
                           + [(c >> 4) & 1 != 0, (c >> 4) & 2 != 0, (c >> 4) & 4 != 0, (c >> 4) & 8 != 0]
  {
    LowBits4(c);
    LowBits4(c >> 4);
    Halves4(c);
    LowBitsSplit(c, 4, 4);
  }

  lemma BitsByBytes(c: bv32, d: bv32, e: bv32, f: bv32)
    requires d == NextByte(c) && e == NextByte(d) && f == NextByte(e)
    ensures Bits(c) == LowBits(c, 8) + LowBits(d, 8) + LowBits(e, 8) + LowBits(f, 8)
  {
    hide Halves, LowBits, NextByte;
    Halves8(c);
    Halves8(d);
    Halves8(e);
    LowBitsInFour(c, 8);
    assert Bits(c) == LowBits(c, 8 + 8 + 8 + 8);
  }

  lemma BitsOfOnes()
    ensures Bits(ALL_ONES) == Ones(32)
  {
    BitsByBytes(ALL_ONES, 0x00FF_FFFF, 0x0000_FFFF, 0x0000_00FF);
    LowBits8(ALL_ONES);
    LowBits8(0x00FF_FFFF);
    LowBits8(0x0000_FFFF);
    LowBits8(0x0000_00FF);
    var byteOfOnes := [true, true, true, true, true, true, true, true];
    assert LowBits(ALL_ONES, 8) == byteOfOnes;
    assert Bits(ALL_ONES) == byteOfOnes + byteOfOnes + byteOfOnes + byteOfOnes;
  }

  lemma BitsOfPolynomial()
    ensures Bits(POLYNOMIAL) == GeneratorLow()
  {
    BitsByBytes(POLYNOMIAL, 0x00ED_B883, 0x0000_EDB8, 0x0000_00ED);
    LowBits8(POLYNOMIAL);
    LowBits8(0x00ED_B883);
    LowBits8(0x0000_EDB8);
    LowBits8(0x0000_00ED);
  }

  lemma BitsOfNot(a: bv32)
    ensures Bits(!a) == Not(Bits(a))
  {
    NotIsXor(a);
    BitsPlus(a, ALL_ONES);
    BitsOfOnes();
  }

  lemma NotIsXor(a: bv32)
    ensures !a == a ^ ALL_ONES
  {
  }

  lemma HalfAndLow(a: bv32, b: bv32)
    requires Half(a) == Half(b) && Low(a) == Low(b)
    ensures a == b
  {
  }

  lemma {:induction false} LowBitsInjective(a: bv32, b: bv32, n: nat)
    requires LowBits(a, n) == LowBits(b, n) && Halves(a, n) == Halves(b, n)
    ensures a == b
    decreases n
  {
    if n > 0 {
      assert LowBits(a, n)[0] == LowBits(b, n)[0];
      assert LowBits(a, n)[1..] == LowBits(b, n)[1..];
      LowBitsInjective(Half(a), Half(b), n - 1);
      HalfAndLow(a, b);
    }
  }

  lemma BitsInjective(a: bv32, b: bv32)
    requires Bits(a) == Bits(b)
    ensures a == b
  {
    Halves32(a);
    Halves32(b);
    LowBitsInjective(a, b, 32);
  }

  // ---- The word machine is the register machine ----

  lemma HalfHasNoTopBit(c: bv32)
    ensures Bits(Half(c)) == Bits(c)[1..] + [false]
  {
    LowBitsSplit(Half(c), 31, 1);
    HalvesAdds(c, 1, 31);
    assert Halves(c, 1) == Half(c);
    Halves32(c);
    assert !Low(0);
  }

  lemma BitStepAdds(c: bv32)
    ensures BitStep(c) == if Low(c) then Plus(Half(c), POLYNOMIAL) else Half(c)
  {
  }

  lemma ShiftAddsGenerator(r: Register)
    ensures Shift(r) == if r[0] then Xor(r[1..] + [false], GeneratorLow()) else r[1..] + [false]
  {
  }

  lemma FirstBit(c: bv32)
    ensures Bits(c)[0] == Low(c)
  {
  }

  lemma BitStepIsShift(c: bv32)
    ensures Bits(BitStep(c)) == Shift(Bits(c))
  {
    hide *;
    BitStepAdds(c);
    ShiftAddsGenerator(Bits(c));
    FirstBit(c);
    HalfHasNoTopBit(c);
    BitsOfPolynomial();
    BitsPlus(Half(c), POLYNOMIAL);
  }

  lemma {:induction false} ShiftsLast(r: Register, n: nat)
    requires n > 0
    ensures Shifts(r, n) == Shift(Shifts(r, n - 1))
    decreases n
  {
    hide Shift;
    if n > 1 {
      ShiftsLast(Shift(r), n - 1);
    }
  }

  lemma BitStepsUnroll(c: bv32, n: nat)
    ensures BitSteps(c, n + 1) == BitStep(BitSteps(c, n)) && BitSteps(c, 0) == c && Shifts(Bits(c), 0) == Bits(c)
  {
    hide Bits, BitStep;
  }

  lemma BitStepsAreShifts(c: bv32, n: nat)
    ensures Bits(BitSteps(c, n)) == Shifts(Bits(c), n)
  {
    hide *;
    var i := 0;
    BitStepsUnroll(c, 0);
    while i < n
      invariant i <= n && Bits(BitSteps(c, i)) == Shifts(Bits(c), i)
    {
      BitStepsUnroll(c, i);
      BitStepIsShift(BitSteps(c, i));
      ShiftsLast(Bits(c), i + 1);
      i := i + 1;
    }
  }

  lemma ByteHasEightBits(b: byte)
    ensures Bits(b as bv32) == ByteBits(b) + Zeros(24)
  {
    var c := b as bv32;
    LowBitsSplit(c, 8, 24);
    Halves8(c);
    assert c >> 8 == 0;
    LowBitsOfZero(24);
  }

  lemma {:induction false} LowBitsOfZero(n: nat)
    ensures LowBits(0, n) == Zeros(n)
    decreases n
  {
    if n > 0 {
      assert !Low(0) && Half(0) == 0;
      LowBitsOfZero(n - 1);
    }
  }

  lemma MetBits(c: bv32, b: byte)
    ensures Bits(Met(c, b)) == Xor(Bits(c), ByteBits(b) + Zeros(24))
  {
    hide *;
    MetIsPlus(c, b);
    BitsPlus(c, b as bv32);
    ByteHasEightBits(b);
  }

  lemma MetIsPlus(c: bv32, b: byte)
    ensures Met(c, b) == Plus(c, b as bv32)
  {
  }

  lemma UpdateByteIsFeed(c: bv32, b: byte)
    ensures Bits(UpdateByte(c, b)) == Feed(Bits(c), ByteBits(b))
  {
    hide *;
    UpdateByteSteps(c, b);
    MetBits(c, b);
    BitStepsAreShifts(Met(c, b), 8);
    FeedIsAddThenShift(Bits(c), ByteBits(b));
  }

  lemma {:induction false} UpdateIsFeed(c: bv32, bytes: seq<byte>)
    ensures Bits(Update(c, bytes)) == Feed(Bits(c), MessageBits(bytes))
  {
    hide UpdateByte, ByteBits, Bits, FeedBit;
    if bytes != [] {
      var init, last := bytes[..|bytes| - 1], bytes[|bytes| - 1];
      UpdateIsFeed(c, init);
      UpdateByteIsFeed(Update(c, init), last);
      FeedConcat(Bits(c), MessageBits(init), ByteBits(last));
    }
  }

  lemma CrcIsFeed(bytes: seq<byte>)
    ensures Bits(Crc(bytes)) == Not(Feed(Ones(32), MessageBits(bytes)))
  {
    UpdateIsFeed(ALL_ONES, bytes);
    BitsOfOnes();
    BitsOfNot(Update(ALL_ONES, bytes));
  }

  /** Main result: `Crc` is the complement of the remainder that clause 3.2.9 of
      IEEE Std 802.3 defines by polynomial division, and of no other remainder. */
  lemma CrcIsPolynomialRemainder(bytes: seq<byte>, remainder: Register)
    ensures Bits(Crc(bytes)) == Not(remainder)
       <==> exists q :: IsDivision(bytes, q, remainder)
  {
    hide Crc, Bits, MessageBits;
    CrcIsFeed(bytes);
    var m := MessageBits(bytes);
    var q, r := Quotient(Ones(32), m), Feed(Ones(32), m);
    FeedDivides(Ones(32), m);
    assert IsDivision(bytes, q, r);
    assert Not(Not(remainder)) == remainder && Not(Not(r)) == r;
    forall p | IsDivision(bytes, p, remainder) ensures remainder == r {
      RemainderIsUnique(Dividend(Ones(32), m), p, remainder, q, r);
    }
  }

  /** `q` and `remainder` divide the message, as clause 3.2.9 prepares it, by the generator. */
  ghost predicate IsDivision(bytes: seq<byte>, q: Poly, remainder: Register) {
    |q| == 8 * |bytes|
    && Dividend(Ones(32), MessageBits(bytes)) == Xor(TimesGenerator(q), Zeros(|q|) + remainder)
  }

  // ---- The table-driven code ----

  function TableEntry(b: byte): bv32 {
    BitSteps(b as bv32, 8)
  }

  /** Entry i is what eight bit steps make of i. */
  function Table(): (t: seq<bv32>)
    ensures |t| == 256
  {
    seq(256, i requires 0 <= i < 256 => TableEntry(ByteOf(i)))
  }

  /** `build_crc32_table`. */
  method BuildTable() returns (table: array<bv32>)
    ensures fresh(table) && table[..] == Table()
  {
    table := new bv32[256];
    var i := 0;
    while i < 256
      invariant 0 <= i <= 256
      invariant forall k | 0 <= k < i :: table[k] == Table()[k]
    {
      table[i] := BuildEntry(ByteOf(i));
      i := i + 1;
    }
  }

  /** The inner loop of `build_crc32_table`. */
  method BuildEntry(i: byte) returns (crc: bv32)
    ensures crc == TableEntry(i)
  {
    hide BitSteps;
    crc := i as bv32;
    var j := 0;
    BitStepsOne(i as bv32, 0);
    while j < 8
      invariant 0 <= j <= 8 && crc == BitSteps(i as bv32, j)
    {
      BitStepsOne(i as bv32, j + 1);
      crc := if crc & 1 != 0 then (crc >> 1) ^ 0xEDB8_8320 else crc >> 1;
      j := j + 1;
    }
  }

  lemma BitStepsOne(c: bv32, n: nat)
    ensures BitSteps(c, n) == if n == 0 then c else BitStep(BitSteps(c, n - 1))
  {
  }

  /** `BitSteps` is linear. */
  lemma BitStepsPlus(a: bv32, b: bv32, n: nat)
    ensures BitSteps(Plus(a, b), n) == Plus(BitSteps(a, n), BitSteps(b, n))
  {
    hide *;
    BitsPlus(a, b);
    BitStepsAreShifts(a, n);
    BitStepsAreShifts(b, n);
    BitStepsAreShifts(Plus(a, b), n);
    ShiftsAdd(Bits(a), Bits(b), n);
    BitsPlus(BitSteps(a, n), BitSteps(b, n));
    BitsInjective(BitSteps(Plus(a, b), n), Plus(BitSteps(a, n), BitSteps(b, n)));
  }

  lemma EightShifts(c: bv32)
    requires c & 0xFF == 0
    ensures BitSteps(c, 8) == c >> 8
  {
    assert BitSteps(c, 1) == c >> 1;
    assert BitSteps(c, 2) == c >> 2;
    assert BitSteps(c, 3) == c >> 3;
    assert BitSteps(c, 4) == c >> 4;
    assert BitSteps(c, 5) == c >> 5;
    assert BitSteps(c, 6) == c >> 6;
    assert BitSteps(c, 7) == c >> 7;
  }

  /** The register with the next message byte added to its low byte, and its parts. */
  function Met(c: bv32, b: byte): bv32 {
    c ^ (b as bv32)
  }

  function HighPart(x: bv32): bv32 {
    x & 0xFFFF_FF00
  }

  function LowPart(x: bv32): bv32 {
    x & 0xFF
  }

  lemma SplitWord(x: bv32)
    ensures x == Plus(HighPart(x), LowPart(x))
  {
  }

  lemma HighPartShifts(c: bv32, b: byte)
    ensures HighPart(Met(c, b)) & 0xFF == 0 && HighPart(Met(c, b)) >> 8 == c >> 8
  {
  }

  lemma HighPartSteps(c: bv32, b: byte)
    ensures BitSteps(HighPart(Met(c, b)), 8) == NextByte(c)
  {
    hide BitSteps, HighPart, Met;
    HighPartShifts(c, b);
    EightShifts(HighPart(Met(c, b)));
  }

  /** The low byte of the register plus the next message byte. */
  function TableIndex(c: bv32, b: byte): (i: int)
    ensures 0 <= i < 256
  {
    ByteOfIntOf(ByteAt(c ^ (b as bv32)));
    IntOf(ByteAt(c ^ (b as bv32)))
  }

  /** One step of the table-driven loop. */
  function TableUpdate(c: bv32, b: byte): bv32 {
    (c >> 8) ^ Table()[TableIndex(c, b)]
  }

  lemma LowByte(x: bv32)
    ensures ByteAt(x) as bv32 == LowPart(x)
  {
  }

  lemma TableLooksUp(c: bv32, b: byte)
    ensures Table()[TableIndex(c, b)] == BitSteps(LowPart(Met(c, b)), 8)
  {
    hide BitSteps, ByteAt, IntOf, ByteOf;
    var x := c ^ (b as bv32);
    ByteOfIntOf(ByteAt(x));
    LowByte(x);
  }

  lemma TableUpdateAdds(c: bv32, b: byte)
    ensures TableUpdate(c, b) == Plus(NextByte(c), Table()[TableIndex(c, b)])
  {
    hide Table, TableIndex;
  }

  lemma UpdateByteSteps(c: bv32, b: byte)
    ensures UpdateByte(c, b) == BitSteps(Met(c, b), 8)
  {
  }

  /** One table step is eight bit steps: this is what makes the table correct. */
  lemma TableUpdateIsUpdateByte(c: bv32, b: byte)
    ensures TableUpdate(c, b) == UpdateByte(c, b)
  {
    hide *;
    var x := Met(c, b);
    UpdateByteSteps(c, b);
    SplitWord(x);
    BitStepsPlus(HighPart(x), LowPart(x), 8);
    HighPartSteps(c, b);
    TableLooksUp(c, b);
    TableUpdateAdds(c, b);
  }

  /** The protocol's `crc32`. */
  method Compute(bytes: seq<byte>) returns (result: bv32)
    ensures result == Crc(bytes)
  {
    hide TableUpdate, UpdateByte;
    var crc: bv32 := 0xFFFF_FFFF;
    for i := 0 to |bytes|
      invariant crc == Update(ALL_ONES, bytes[..i])
    {
      assert bytes[..i + 1][..i] == bytes[..i];
      TableUpdateIsUpdateByte(crc, bytes[i]);
      crc := TableUpdate(crc, bytes[i]);
    }
    assert bytes[..|bytes|] == bytes;
    result := !crc;
  }

  // ---- Stored check words ----

  /** `crc.to_le_bytes()`. */
  function WordBytes(c: bv32): (r: seq<byte>)
    ensures |r| == 4
  {
    var d := NextByte(c);
    var e := NextByte(d);
    [ByteAt(c), ByteAt(d), ByteAt(e), ByteAt(NextByte(e))]
  }

  function JoinBytes(a: byte, b: byte, c: byte, d: byte): bv32 {
    (a as bv32) | ((b as bv32) << 8) | ((c as bv32) << 16) | ((d as bv32) << 24)
  }

  /** `u32::from_le_bytes`. */
  function BytesWord(w: seq<byte>): bv32
    requires |w| == 4
  {
    JoinBytes(w[0], w[1], w[2], w[3])
  }

  lemma JoinedBytes(a: byte, b: byte, c: byte, d: byte, w: bv32)
    requires w == JoinBytes(a, b, c, d)
    ensures ByteAt(w) == a && ByteAt(NextByte(w)) == b
    ensures ByteAt(NextByte(NextByte(w))) == c && ByteAt(NextByte(NextByte(NextByte(w)))) == d
  {
  }

  lemma SplitBytes(w: bv32)
    ensures JoinBytes(ByteAt(w), ByteAt(NextByte(w)), ByteAt(NextByte(NextByte(w))),
                      ByteAt(NextByte(NextByte(NextByte(w))))) == w
  {
  }

  lemma WordRoundTrip(c: bv32)
    ensures BytesWord(WordBytes(c)) == c
  {
    hide JoinBytes, ByteAt, NextByte;
    SplitBytes(c);
  }

  lemma BytesRoundTrip(w: seq<byte>)
    requires |w| == 4
    ensures WordBytes(BytesWord(w)) == w
  {
    hide JoinBytes, ByteAt, NextByte;
    JoinedBytes(w[0], w[1], w[2], w[3], BytesWord(w));
  }

  lemma ByteAtBits(c: bv32)
    ensures ByteBits(ByteAt(c)) == LowBits(c, 8)
  {
    LowBits8(c);
    LowBits8(c & 0xFF);
    assert ByteAt(c) as bv32 == c & 0xFF;
  }

  lemma MessageBitsOfNone(none: seq<byte>)
    requires none == []
    ensures MessageBits(none) == []
  {
  }

  lemma MessageBitsAppend(s: seq<byte>, b: byte)
    ensures MessageBits(s + [b]) == MessageBits(s) + ByteBits(b)
  {
    hide ByteBits;
    assert (s + [b])[..|s|] == s;
  }

  lemma {:induction false} MessageBitsConcat(a: seq<byte>, b: seq<byte>)
    ensures MessageBits(a + b) == MessageBits(a) + MessageBits(b)
    decreases |b|
  {
    hide *;
    if b == [] {
      MessageBitsOfNone(b);
      assert a + b == a;
    } else {
      var init, last := b[..|b| - 1], b[|b| - 1];
      MessageBitsConcat(a, init);
      MessageBitsAppend(init, last);
      MessageBitsAppend(a + init, last);
      assert b == init + [last] && a + b == (a + init) + [last];
    }
  }

  lemma MessageBitsOfOne(b: byte)
    ensures MessageBits([b]) == ByteBits(b)
  {
    assert [b][..0] == [];
  }

  /** The check word is transmitted as its 32 bits, in register order. */
  lemma WordBytesBits(c: bv32)
    ensures MessageBits(WordBytes(c)) == Bits(c)
  {
    hide MessageBits, Bits, ByteBits, ByteAt, NextByte, LowBits;
    var d := NextByte(c);
    var e := NextByte(d);
    var f := NextByte(e);
    BitsByBytes(c, d, e, f);
    ByteAtBits(c);
    ByteAtBits(d);
    ByteAtBits(e);
    ByteAtBits(f);
    MessageBitsOfFour(ByteAt(c), ByteAt(d), ByteAt(e), ByteAt(f));
  }

  lemma MessageBitsOfFour(a: byte, b: byte, c: byte, d: byte)
    ensures MessageBits([a, b, c, d]) == ByteBits(a) + ByteBits(b) + ByteBits(c) + ByteBits(d)
  {
    hide ByteBits;
    assert [a, b, c, d] == [a] + [b] + [c] + [d];
    MessageBitsConcat([a] + [b] + [c], [d]);
    MessageBitsConcat([a] + [b], [c]);
    MessageBitsConcat([a], [b]);
    MessageBitsOfOne(a);
    MessageBitsOfOne(b);
    MessageBitsOfOne(c);
    MessageBitsOfOne(d);
  }

  // ---- What the check word detects ----

  /** The reader's test: the last four bytes are the CRC of everything before them. */
  predicate Checks(codeword: seq<byte>)
    requires |codeword| >= 4
  {
    Crc(codeword[..|codeword| - 4]) == BytesWord(codeword[|codeword| - 4..])
  }

  /** A codeword passes the reader's test exactly when it leaves the fixed residue. */
  lemma ChecksMeansResidue(codeword: seq<byte>)
    requires |codeword| >= 4
    ensures Checks(codeword) <==> Feed(Ones(32), MessageBits(codeword)) == RESIDUE
  {
    hide Bits, MessageBits, Crc, WordBytes, BytesWord;
    var body, check := codeword[..|codeword| - 4], codeword[|codeword| - 4..];
    var w := BytesWord(check);
    assert codeword == body + check;
    MessageBitsConcat(body, check);
    BytesRoundTrip(check);
    WordBytesBits(w);
    ResidueCharacterizesCheckBits(Ones(32), MessageBits(body), Bits(w));
    CrcIsFeed(body);
    if Bits(w) == Bits(Crc(body)) {
      BitsInjective(w, Crc(body));
    }
  }

  lemma ByteBitsInjective(a: byte, b: byte)
    requires ByteBits(a) == ByteBits(b)
    ensures a == b
  {
    hide Bits, ByteBits;
    ByteHasEightBits(a);
    ByteHasEightBits(b);
    BitsInjective(a as bv32, b as bv32);
    ByteFromWord(a, b);
  }

  lemma ByteFromWord(a: byte, b: byte)
    requires a as bv32 == b as bv32
    ensures a == b
  {
  }

  lemma ConcatInjective(a: seq<bool>, b: seq<bool>, c: seq<bool>, d: seq<bool>)
    requires |a| == |c| && a + b == c + d
    ensures a == c && b == d
  {
    assert a == (a + b)[..|a|] && c == (c + d)[..|c|];
    assert b == (a + b)[|a|..] && d == (c + d)[|c|..];
  }

  /** Different byte strings of one length have different bits. */
  lemma {:induction false} MessageBitsInjective(a: seq<byte>, b: seq<byte>)
    requires |a| == |b| && MessageBits(a) == MessageBits(b)
    ensures a == b
  {
    hide ByteBits;
    if a != [] {
      var n := |a| - 1;
      ConcatInjective(MessageBits(a[..n]), ByteBits(a[n]), MessageBits(b[..n]), ByteBits(b[n]));
      MessageBitsInjective(a[..n], b[..n]);
      ByteBitsInjective(a[n], b[n]);
      assert a == a[..n] + [a[n]] && b == b[..n] + [b[n]];
    }
  }

  /** A change confined to four consecutive bytes always changes the register. */
  lemma BurstChangesFeed(a: seq<byte>, b: seq<byte>, from: nat, until: nat)
    requires DifferOnlyIn(a, b, from, until) && until - from <= 4 && a != b
    ensures Feed(Ones(32), MessageBits(a)) != Feed(Ones(32), MessageBits(b))
  {
    hide MessageBits;
    var before, after, v, w := a[..from], a[until..], a[from..until], b[from..until];
    assert a == before + v + after && b == before + w + after;
    MessageBitsConcat(before + v, after);
    MessageBitsConcat(before, v);
    MessageBitsConcat(before + w, after);
    MessageBitsConcat(before, w);
    if MessageBits(v) == MessageBits(w) {
      MessageBitsInjective(v, w);
    } else {
      BurstChangesRegister(Ones(32), MessageBits(before), MessageBits(v), MessageBits(w), MessageBits(after));
    }
  }

  /** Burst detection: two byte strings of one length that differ only inside four
      consecutive bytes have different CRCs. */
  lemma BurstChangesCrc(a: seq<byte>, b: seq<byte>, from: nat, until: nat)
    requires DifferOnlyIn(a, b, from, until) && until - from <= 4 && a != b
    ensures Crc(a) != Crc(b)
  {
    hide MessageBits, Bits, Crc;
    BurstChangesFeed(a, b, from, until);
    CrcIsFeed(a);
    CrcIsFeed(b);
    var ra, rb := Feed(Ones(32), MessageBits(a)), Feed(Ones(32), MessageBits(b));
    assert Not(Not(ra)) == ra && Not(Not(rb)) == rb;
  }

  /** The same for a body with its check word: even a burst that straddles the boundary
      between the two turns a good codeword into a bad one. */
  lemma BurstIsDetected(good: seq<byte>, bad: seq<byte>, from: nat, until: nat)
    requires |good| >= 4 && Checks(good)
    requires DifferOnlyIn(good, bad, from, until) && until - from <= 4 && good != bad
    ensures !Checks(bad)
  {
    hide MessageBits, Checks;
    BurstChangesFeed(good, bad, from, until);
    ChecksMeansResidue(good);
    ChecksMeansResidue(bad);
  }
}
