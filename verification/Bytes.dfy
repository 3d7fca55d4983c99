/** Byte strings and little-endian integers. */
module Bytes {
  import opened Arithmetic

  type byte = bv8

  // ---- Bytes as numbers, bit by bit, lowest bit first ----

  function BitsOf(b: byte): (d: seq<bool>)
    ensures |d| == 8
  {
    [b & 1 != 0, b & 2 != 0, b & 4 != 0, b & 8 != 0, b & 16 != 0, b & 32 != 0, b & 64 != 0, b & 128 != 0]
  }

  function Join(d: seq<bool>): byte
    requires |d| == 8
  {
    (if d[0] then 1 else 0) | (if d[1] then 2 else 0) | (if d[2] then 4 else 0) | (if d[3] then 8 else 0)
    | (if d[4] then 16 else 0) | (if d[5] then 32 else 0) | (if d[6] then 64 else 0) | (if d[7] then 128 else 0)
  }

  /** The k lowest binary digits of a number. */
  function Digits(n: nat, k: nat): (d: seq<bool>)
    ensures |d| == k
    decreases k
  {
    if k == 0 then [] else [n % 2 == 1] + Digits(n / 2, k - 1)
  }

  function Weigh(d: seq<bool>): nat {
    if d == [] then 0 else (if d[0] then 1 else 0) + 2 * Weigh(d[1..])
  }

  lemma {:induction false} WeighDigits(n: nat, k: nat)
    requires n < Pow2(k)
    ensures Weigh(Digits(n, k)) == n
    decreases k
  {
    if k > 0 {
      WeighDigits(n / 2, k - 1);
    }
  }

  lemma {:induction false} DigitsWeigh(d: seq<bool>)
    ensures Weigh(d) < Pow2(|d|) && Digits(Weigh(d), |d|) == d
  {
    if d != [] {
      DigitsWeigh(d[1..]);
      assert Weigh(d) / 2 == Weigh(d[1..]);
    }
  }

  lemma JoinedBits(d: seq<bool>)
    requires |d| == 8
    ensures BitsOf(Join(d)) == d
  {
  }

  lemma BitsJoin(b: byte)
    ensures Join(BitsOf(b)) == b
  {
  }

  lemma ByteBound()
    ensures Pow2(8) == 256
  {
  }

  /** `n as u8`. */
  function ByteOf(n: nat): byte
    requires n < 256
  {
    Join(Digits(n, 8))
  }

  function IntOf(b: byte): nat {
    Weigh(BitsOf(b))
  }

  lemma IntOfByteOf(n: nat)
    requires n < 256
    ensures IntOf(ByteOf(n)) == n
  {
    ByteBound();
    hide Digits, Weigh, Join, BitsOf, Pow2;
    JoinedBits(Digits(n, 8));
    WeighDigits(n, 8);
  }

  lemma ByteOfIntOf(b: byte)
    ensures IntOf(b) < 256 && ByteOf(IntOf(b)) == b
  {
    ByteBound();
    hide Digits, Weigh, Join, BitsOf, Pow2;
    DigitsWeigh(BitsOf(b));
    BitsJoin(b);
  }

  /** `n.to_le_bytes()` for a k-byte unsigned integer. */
  function LittleEndian(n: nat, k: nat): (r: seq<byte>)
    ensures |r| == k
    decreases k
  {
    if k == 0 then [] else [ByteOf(n % 256)] + LittleEndian(n / 256, k - 1)
  }

  /** `from_le_bytes`. */
  function FromLittleEndian(bytes: seq<byte>): nat {
    if bytes == [] then 0 else IntOf(bytes[0]) + 256 * FromLittleEndian(bytes[1..])
  }

  /** 256^k: one more than the largest k-byte unsigned integer. */
  function Bound(k: nat): (r: nat)
    ensures r > 0
  {
    if k == 0 then 1 else 256 * Bound(k - 1)
  }

  lemma {:induction false} DecodeEncode(n: nat, k: nat)
    requires n < Bound(k)
    ensures FromLittleEndian(LittleEndian(n, k)) == n
    decreases k
  {
    hide IntOf, ByteOf;
    if k > 0 {
      IntOfByteOf(n % 256);
      DecodeEncode(n / 256, k - 1);
    }
  }

  lemma {:induction false} EncodeDecode(bytes: seq<byte>)
    ensures FromLittleEndian(bytes) < Bound(|bytes|)
    ensures LittleEndian(FromLittleEndian(bytes), |bytes|) == bytes
  {
    hide IntOf, ByteOf;
    if bytes != [] {
      ByteOfIntOf(bytes[0]);
      SplitInt(IntOf(bytes[0]), FromLittleEndian(bytes[1..]));
      EncodeDecode(bytes[1..]);
    }
  }

  lemma SplitInt(low: nat, high: nat)
    requires low < 256
    ensures (low + 256 * high) % 256 == low && (low + 256 * high) / 256 == high
  {
  }

  /** The number without its i lowest bytes. */
  function Behead(n: nat, i: nat): nat {
    if i == 0 then n else Behead(n / 256, i - 1)
  }

  lemma {:induction false} LittleEndianByte(bytes: seq<byte>, i: nat)
    requires i < |bytes|
    ensures IntOf(bytes[i]) == Behead(FromLittleEndian(bytes), i) % 256
  {
    hide IntOf;
    ByteOfIntOf(bytes[0]);
    SplitInt(IntOf(bytes[0]), FromLittleEndian(bytes[1..]));
    if i > 0 {
      LittleEndianByte(bytes[1..], i - 1);
    }
  }

  /** `target` with `piece` copied over it at `at`, as `copy_from_slice` does. */
  function Overwrite(target: seq<byte>, at: nat, piece: seq<byte>): (r: seq<byte>)
    requires at + |piece| <= |target|
    ensures |r| == |target|
    ensures forall i | 0 <= i < |target| ::
      r[i] == if at <= i < at + |piece| then piece[i - at] else target[i]
  {
    target[..at] + piece + target[at + |piece|..]
  }

  /** Two byte strings of one length that agree outside the window [from, until). */
  predicate DifferOnlyIn(a: seq<byte>, b: seq<byte>, from: nat, until: nat) {
    |a| == |b| && from <= until <= |a| && a[..from] == b[..from] && a[until..] == b[until..]
  }

  lemma SliceOfSlice(s: seq<byte>, lo: nat, hi: nat, from: nat, until: nat)
    requires lo <= hi <= |s| && from <= until <= hi - lo
    ensures s[lo..hi][from..until] == s[lo + from..lo + until]
  {
    forall i | 0 <= i < until - from ensures s[lo..hi][from..until][i] == s[lo + from..lo + until][i] {
    }
  }

  lemma FourPieces(a: seq<byte>, b: seq<byte>, c: seq<byte>, d: seq<byte>, s: seq<byte>)
    requires s == a + b + c + d
    ensures |s| == |a| + |b| + |c| + |d|
    ensures s[..|a|] == a && s[|a|..|a| + |b|] == b
    ensures s[|a| + |b|..|a| + |b| + |c|] == c && s[|a| + |b| + |c|..] == d
    ensures s[..|a| + |b| + |c|] == a + b + c
  {
    assert s == (a + b + c) + d;
    assert s[..|a| + |b| + |c|] == a + b + c;
    assert s == a + (b + c + d);
    assert s == (a + b) + (c + d);
    assert s[|a|..][..|b|] == b;
    assert s[|a| + |b|..][..|c|] == c;
  }
}
