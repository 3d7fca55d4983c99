/**
 The per-worker crash ledger: two self-checking slots written alternately, then an
 unprotected echo of the candidate. The shared mapping is an array of bytes; a crash
 can leave any mixture of old and new bytes of the commit in progress.
 */
module CrashLedger {
  import opened Wrappers
  import opened Bytes
  import opened Crc32

  const SLOT_MAGIC: nat := 0x4652_465A_4C45_4447
  const SLOTS: nat := 2
  const SLOT_LEN: nat := 128
  const SEQ_OFF: nat := 8
  const COORD_OFF: nat := 16
  const COORD_LEN: nat := 49
  const CRC_OFF: nat := 65
  /** magic + seq + coordinate + crc; the rest of a slot is padding. */
  const CODEWORD_LEN: nat := 69
  const ECHO_LEN_OFF: nat := 256
  const ECHO_BYTES_OFF: nat := 260
  const MAX_ECHO_LEN: nat := 0x10_0000
  const LEDGER_LEN: nat := ECHO_BYTES_OFF + MAX_ECHO_LEN
  const U64: nat := 0x1_0000_0000_0000_0000

  type Ledger = m: seq<byte> | |m| == LEDGER_LEN witness seq(LEDGER_LEN, i => 0)
  type Coordinate = c: seq<byte> | |c| == COORD_LEN witness seq(COORD_LEN, i => 0)

  // ---- Writing a commit ----

  function ReadSeq(m: Ledger, slot: nat): nat
    requires slot < SLOTS
  {
    FromLittleEndian(m[slot * SLOT_LEN + SEQ_OFF..slot * SLOT_LEN + COORD_OFF])
  }

  /** A commit goes to the older of the two slots, the first one when neither is older. */
  function NextSlot(m: Ledger): (slot: nat)
    ensures slot < SLOTS
  {
    if ReadSeq(m, 0) <= ReadSeq(m, 1) then 0 else 1
  }

  function Max(a: nat, b: nat): nat {
    if a < b then b else a
  }

  /** One more than the larger sequence number, wrapping at 64 bits. */
  function NextSeq(m: Ledger): nat {
    (Max(ReadSeq(m, 0), ReadSeq(m, 1)) + 1) % U64
  }

  /** What a commit stores in its slot: body, then the CRC of the body. */
  function Body(sequence: nat, coord: Coordinate): (r: seq<byte>)
    ensures |r| == CRC_OFF
  {
    LittleEndian(SLOT_MAGIC, 8) + LittleEndian(sequence, 8) + coord
  }

  function Codeword(sequence: nat, coord: Coordinate): (r: seq<byte>)
    ensures |r| == CODEWORD_LEN
  {
    Body(sequence, coord) + WordBytes(Crc(Body(sequence, coord)))
  }

  function SlotAt(m: Ledger, slot: nat): (r: seq<byte>)
    requires slot < SLOTS
    ensures |r| == CODEWORD_LEN
  {
    m[slot * SLOT_LEN..slot * SLOT_LEN + CODEWORD_LEN]
  }

  /** The ledger after one commit. */
  function Committed(m: Ledger, coord: Coordinate): Ledger {
    Overwrite(m, NextSlot(m) * SLOT_LEN, Codeword(NextSeq(m), coord))
  }

  /** The ledger after echoing `input`. */
  function Echoed(m: Ledger, input: seq<byte>): Ledger
    requires |input| <= MAX_ECHO_LEN
  {
    Overwrite(Overwrite(m, ECHO_LEN_OFF, LittleEndian(|input|, 4)), ECHO_BYTES_OFF, input)
  }

  // ---- Reading ----

  datatype Reading = Reading(sequence: nat, coord: seq<byte>)

  datatype LedgerError = SlotsAllInvalid | EchoTooLong

  predicate HasMagic(w: seq<byte>)
    requires |w| == CODEWORD_LEN
  {
    FromLittleEndian(w[..8]) == SLOT_MAGIC
  }

  /** What the reader gets from one slot. */
  function SlotReading(w: seq<byte>): Option<Reading>
    requires |w| == CODEWORD_LEN
  {
    if HasMagic(w) && Checks(w)
    then Some(Reading(FromLittleEndian(w[SEQ_OFF..COORD_OFF]), w[COORD_OFF..CRC_OFF]))
    else None
  }

  /** The newer of two readings; the first slot wins a tie. */
  function Newer(a: Option<Reading>, b: Option<Reading>): Option<Reading> {
    if a.None? then b
    else if b.None? || a.value.sequence >= b.value.sequence then a
    else b
  }

  function Latest(m: Ledger): Result<Option<Reading>, LedgerError> {
    var best := Newer(SlotReading(SlotAt(m, 0)), SlotReading(SlotAt(m, 1)));
    if best.None? && (HasMagic(SlotAt(m, 0)) || HasMagic(SlotAt(m, 1))) then Err(SlotsAllInvalid)
    else Ok(best)
  }

  /** The reader's view of the echo region. */
  function Echo(m: Ledger): seq<byte> {
    var n := FromLittleEndian(m[ECHO_LEN_OFF..ECHO_BYTES_OFF]);
    if n == 0 || n > MAX_ECHO_LEN then [] else m[ECHO_BYTES_OFF..ECHO_BYTES_OFF + n]
  }

  // ---- What one commit does ----

  lemma CodewordReads(sequence: nat, coord: Coordinate)
    requires sequence < U64
    ensures SlotReading(Codeword(sequence, coord)) == Some(Reading(sequence, coord))
  {
    hide Crc, WordBytes, BytesWord, LittleEndian, FromLittleEndian;
    var w, body := Codeword(sequence, coord), Body(sequence, coord);
    FourPieces(LittleEndian(SLOT_MAGIC, 8), LittleEndian(sequence, 8), coord, WordBytes(Crc(body)), w);
    Bound8();
    DecodeEncode(SLOT_MAGIC, 8);
    DecodeEncode(sequence, 8);
    WordRoundTrip(Crc(body));
  }

  lemma Bound8()
    ensures Bound(8) == U64 && Bound(4) == 0x1_0000_0000
  {
  }

  lemma ReadSeqOfSlot(m: Ledger, slot: nat)
    requires slot < SLOTS
    ensures ReadSeq(m, slot) == FromLittleEndian(SlotAt(m, slot)[SEQ_OFF..COORD_OFF]) < U64
  {
    SliceOfSlice(m, slot * SLOT_LEN, slot * SLOT_LEN + CODEWORD_LEN, SEQ_OFF, COORD_OFF);
    EncodeDecode(SlotAt(m, slot)[SEQ_OFF..COORD_OFF]);
    Bound8();
  }

  lemma SeqFits(m: Ledger)
    ensures NextSeq(m) < U64
  {
    hide ReadSeq;
  }

  lemma CommittedSlots(m: Ledger, coord: Coordinate)
    ensures SlotAt(Committed(m, coord), NextSlot(m)) == Codeword(NextSeq(m), coord)
    ensures SlotAt(Committed(m, coord), 1 - NextSlot(m)) == SlotAt(m, 1 - NextSlot(m))
    ensures Echo(Committed(m, coord)) == Echo(m)
  {
    hide Codeword, NextSlot, NextSeq;
    var after := Committed(m, coord);
    assert after[ECHO_LEN_OFF..ECHO_BYTES_OFF] == m[ECHO_LEN_OFF..ECHO_BYTES_OFF];
    assert after[ECHO_BYTES_OFF..] == m[ECHO_BYTES_OFF..];
    assert forall n | 0 <= n <= MAX_ECHO_LEN ::
      after[ECHO_BYTES_OFF..ECHO_BYTES_OFF + n] == after[ECHO_BYTES_OFF..][..n];
    assert forall n | 0 <= n <= MAX_ECHO_LEN ::
      m[ECHO_BYTES_OFF..ECHO_BYTES_OFF + n] == m[ECHO_BYTES_OFF..][..n];
  }

  lemma EchoedSlots(m: Ledger, input: seq<byte>)
    requires |input| <= MAX_ECHO_LEN
    ensures forall slot | 0 <= slot < SLOTS :: SlotAt(Echoed(m, input), slot) == SlotAt(m, slot)
    ensures Echo(Echoed(m, input)) == input
  {
    var after := Echoed(m, input);
    assert after[ECHO_LEN_OFF..ECHO_BYTES_OFF] == LittleEndian(|input|, 4);
    Bound8();
    DecodeEncode(|input|, 4);
    assert after[ECHO_BYTES_OFF..ECHO_BYTES_OFF + |input|] == input;
  }

  /** The slot a commit leaves alone is older than the commit, unless the number wraps to zero. */
  lemma OtherSlotIsOlder(m: Ledger)
    ensures var other := SlotReading(SlotAt(m, 1 - NextSlot(m)));
      other.Some? ==> if NextSeq(m) == 0 then other.value.sequence == U64 - 1 else other.value.sequence < NextSeq(m)
  {
    hide SlotAt, HasMagic, Checks, ReadSeq;
    ReadSeqOfSlot(m, 0);
    ReadSeqOfSlot(m, 1);
  }

  /** A commit on ANY ledger, however damaged, becomes the latest reading, except when the
      64-bit sequence number wraps while the other slot is still valid. */
  lemma CommitIsLatest(m: Ledger, coord: Coordinate)
    ensures Latest(Committed(m, coord)) == Ok(Some(Reading(NextSeq(m), coord)))
       <==> NextSeq(m) != 0 || SlotReading(SlotAt(m, 1 - NextSlot(m))).None?
  {
    hide Codeword, SlotAt, Committed, HasMagic, SlotReading, NextSlot, NextSeq;
    CommittedSlots(m, coord);
    OtherSlotIsOlder(m);
    SeqFits(m);
    CodewordReads(NextSeq(m), coord);
  }

  // ---- Whole runs ----

  datatype Step = Commit(coord: Coordinate) | CommitEcho(input: seq<byte>)

  function ZeroLedger(): Ledger {
    seq(LEDGER_LEN, i => 0)
  }

  /** A refused echo leaves the ledger as it is. */
  function Apply(m: Ledger, step: Step): Ledger {
    match step
    case Commit(coord) => Committed(m, coord)
    case CommitEcho(input) => if |input| <= MAX_ECHO_LEN then Echoed(m, input) else m
  }

  function After(steps: seq<Step>): Ledger {
    if steps == [] then ZeroLedger() else Apply(After(steps[..|steps| - 1]), steps[|steps| - 1])
  }

  /** The coordinates committed by a run, in order. */
  function Commits(steps: seq<Step>): seq<Coordinate> {
    if steps == [] then []
    else
      var before, last := Commits(steps[..|steps| - 1]), steps[|steps| - 1];
      if last.Commit? then before + [last.coord] else before
  }

  /** The last input echoed by a run. */
  function LastEcho(steps: seq<Step>): seq<byte> {
    if steps == [] then []
    else
      var last := steps[|steps| - 1];
      if last.CommitEcho? && |last.input| <= MAX_ECHO_LEN then last.input
      else LastEcho(steps[..|steps| - 1])
  }

  /** The ping-pong invariant after the commits `cs`: they alternate between the slots and
      the two sequence numbers present are |cs| and |cs| - 1. */
  ghost predicate Holds(m: Ledger, cs: seq<Coordinate>) {
    var k := |cs|;
    if k == 0 then SlotIsZero(m, 0) && SlotIsZero(m, 1)
    else
      && SlotAt(m, (k - 1) % 2) == Codeword(k, cs[k - 1])
      && if k == 1 then SlotIsZero(m, 1) else SlotAt(m, k % 2) == Codeword(k - 1, cs[k - 2])
  }

  ghost predicate SlotIsZero(m: Ledger, slot: nat)
    requires slot < SLOTS
  {
    forall i | 0 <= i < CODEWORD_LEN :: SlotAt(m, slot)[i] == 0
  }

  lemma ZeroSlot(m: Ledger, slot: nat)
    requires slot < SLOTS && SlotIsZero(m, slot)
    ensures ReadSeq(m, slot) == 0
    ensures !HasMagic(SlotAt(m, slot)) && SlotReading(SlotAt(m, slot)) == None
  {
    hide Checks;
    ReadSeqOfSlot(m, slot);
    LittleEndianZero(SlotAt(m, slot)[SEQ_OFF..COORD_OFF]);
    LittleEndianZero(SlotAt(m, slot)[..8]);
  }

  lemma {:induction false} LittleEndianZero(bytes: seq<byte>)
    requires forall i | 0 <= i < |bytes| :: bytes[i] == 0
    ensures FromLittleEndian(bytes) == 0
  {
    if bytes != [] {
      LittleEndianZero(bytes[1..]);
      assert IntOf(0) == 0;
    }
  }

  lemma SlotSequence(m: Ledger, slot: nat, k: nat, coord: Coordinate)
    requires slot < SLOTS && k < U64 && SlotAt(m, slot) == Codeword(k, coord)
    ensures ReadSeq(m, slot) == k
    ensures SlotReading(SlotAt(m, slot)) == Some(Reading(k, coord))
  {
    hide Codeword;
    ReadSeqOfSlot(m, slot);
    CodewordReads(k, coord);
  }

  /** Where and under which number the next commit goes. */
  lemma NextOf(m: Ledger, cs: seq<Coordinate>)
    requires Holds(m, cs) && |cs| + 1 < U64
    ensures NextSlot(m) == |cs| % 2 && NextSeq(m) == |cs| + 1
  {
    hide Codeword, SlotAt, ReadSeq, SlotReading;
    var k := |cs|;
    if k == 0 {
      ZeroSlot(m, 0);
      ZeroSlot(m, 1);
    } else {
      SlotSequence(m, (k - 1) % 2, k, cs[k - 1]);
      if k == 1 {
        ZeroSlot(m, 1);
      } else {
        SlotSequence(m, k % 2, k - 1, cs[k - 2]);
      }
    }
  }

  lemma CommitKeepsHolds(m: Ledger, cs: seq<Coordinate>, coord: Coordinate)
    requires Holds(m, cs) && |cs| + 1 < U64
    ensures Holds(Committed(m, coord), cs + [coord])
  {
    hide Codeword, SlotAt, Committed;
    NextOf(m, cs);
    CommittedSlots(m, coord);
  }

  lemma ZeroLedgerHolds()
    ensures Holds(ZeroLedger(), []) && Echo(ZeroLedger()) == []
  {
    LittleEndianZero(ZeroLedger()[ECHO_LEN_OFF..ECHO_BYTES_OFF]);
  }

  lemma {:induction false} RunHolds(steps: seq<Step>)
    requires |Commits(steps)| < U64
    ensures Holds(After(steps), Commits(steps)) && Echo(After(steps)) == LastEcho(steps)
  {
    hide Committed, Echoed, Codeword, SlotAt, Echo;
    if steps == [] {
      ZeroLedgerHolds();
    } else {
      var before, last := steps[..|steps| - 1], steps[|steps| - 1];
      RunHolds(before);
      match last {
        case Commit(coord) =>
          CommitKeepsHolds(After(before), Commits(before), coord);
          CommittedSlots(After(before), coord);
        case CommitEcho(input) =>
          if |input| <= MAX_ECHO_LEN {
            EchoedSlots(After(before), input);
          }
      }
    }
  }

  lemma HoldsLatest(m: Ledger, cs: seq<Coordinate>)
    requires Holds(m, cs) && |cs| < U64
    ensures Latest(m) == Ok(if cs == [] then None else Some(Reading(|cs|, cs[|cs| - 1])))
  {
    hide Codeword, SlotAt, ReadSeq, SlotReading, HasMagic;
    var k := |cs|;
    if k == 0 {
      ZeroSlot(m, 0);
      ZeroSlot(m, 1);
    } else {
      SlotSequence(m, (k - 1) % 2, k, cs[k - 1]);
      if k == 1 {
        ZeroSlot(m, 1);
      } else {
        SlotSequence(m, k % 2, k - 1, cs[k - 2]);
      }
    }
  }

  /** Main result for complete commits: after any run of commits and echoes the reader gets
      the newest coordinate, numbered by the count of commits, and the newest echo. */
  lemma ReaderSeesNewest(steps: seq<Step>)
    requires |Commits(steps)| < U64
    ensures var cs := Commits(steps);
      Latest(After(steps)) == Ok(if cs == [] then None else Some(Reading(|cs|, cs[|cs| - 1])))
    ensures Echo(After(steps)) == LastEcho(steps)
  {
    hide *;
    RunHolds(steps);
    HoldsLatest(After(steps), Commits(steps));
  }

  /** The coordinate and the echo belong together once both writes of an execution are done;
      between the two the echo is still that of the execution before. */
  lemma PairAfterBothWrites(steps: seq<Step>, coord: Coordinate, input: seq<byte>)
    requires |Commits(steps)| + 1 < U64 && |input| <= MAX_ECHO_LEN
    ensures var between, done := After(steps + [Commit(coord)]), After(steps + [Commit(coord), CommitEcho(input)]);
      && Latest(between) == Latest(done) == Ok(Some(Reading(|Commits(steps)| + 1, coord)))
      && Echo(done) == input
      && (Echo(between) == input <==> LastEcho(steps) == input)
  {
    hide After, Latest, Echo;
    var one, two := steps + [Commit(coord)], steps + [Commit(coord), CommitEcho(input)];
    assert one[..|one| - 1] == steps && two[..|two| - 1] == one;
    ReaderSeesNewest(one);
    ReaderSeesNewest(two);
  }

  // ---- Torn commits ----

  /** Every byte of `t` is old or new: what a crash during the write can leave, in whatever
      order the bytes reach the mapping. */
  ghost predicate Mixture(t: Ledger, before: Ledger, after: Ledger) {
    forall i | 0 <= i < LEDGER_LEN :: t[i] == before[i] || t[i] == after[i]
  }

  /** The slot being written passes the reader's checks although it is neither the old nor
      the new slot: its stored CRC happens to equal the CRC of the mixed body. */
  predicate Coincidence(t: Ledger, m: Ledger, coord: Coordinate) {
    var w := SlotAt(t, NextSlot(m));
    SlotReading(w).Some? && w != SlotAt(m, NextSlot(m)) && w != Codeword(NextSeq(m), coord)
  }

  lemma MixtureKeepsOtherSlot(m: Ledger, coord: Coordinate, t: Ledger)
    requires Mixture(t, m, Committed(m, coord))
    ensures SlotAt(t, 1 - NextSlot(m)) == SlotAt(m, 1 - NextSlot(m))
  {
    hide NextSlot, NextSeq, Codeword;
  }

  /** Main result for torn commits: whatever subset of the commit's bytes reached the
      ledger, the reader gets the previous commit or the new one, unless the mixed slot is
      a CRC coincidence. Only before the first commit can it report damage instead: exactly
      when the torn slot carries the magic. */
  lemma TornCommitIsSafe(m: Ledger, cs: seq<Coordinate>, coord: Coordinate, t: Ledger)
    requires Holds(m, cs) && |cs| + 1 < U64
    requires Mixture(t, m, Committed(m, coord)) && !Coincidence(t, m, coord)
    ensures SlotAt(t, NextSlot(m)) == Codeword(NextSeq(m), coord)
        ==> Latest(t) == Latest(Committed(m, coord)) == Ok(Some(Reading(|cs| + 1, coord)))
    ensures SlotAt(t, NextSlot(m)) != Codeword(NextSeq(m), coord) && cs != []
        ==> Latest(t) == Latest(m) == Ok(Some(Reading(|cs|, cs[|cs| - 1])))
    ensures SlotAt(t, NextSlot(m)) != Codeword(NextSeq(m), coord) && cs == []
        ==> Latest(t) == if HasMagic(SlotAt(t, NextSlot(m))) then Err(SlotsAllInvalid) else Ok(None)
  {
    hide Codeword, SlotAt, SlotReading, HasMagic, Committed, NextSlot, NextSeq, ReadSeq;
    NextOf(m, cs);
    MixtureKeepsOtherSlot(m, coord, t);
    HoldsLatest(m, cs);
    CommitKeepsHolds(m, cs, coord);
    HoldsLatest(Committed(m, coord), cs + [coord]);
    CodewordReads(|cs| + 1, coord);
    var k := |cs|;
    if k == 0 {
      ZeroSlot(m, 0);
      ZeroSlot(m, 1);
    } else {
      SlotSequence(m, (k - 1) % 2, k, cs[k - 1]);
      if k == 1 {
        ZeroSlot(m, 1);
      } else {
        SlotSequence(m, k % 2, k - 1, cs[k - 2]);
      }
    }
  }

  /** The magic has no zero byte; three of its bytes are shown. */
  lemma MagicBytes()
    ensures Behead(SLOT_MAGIC, 0) % 256 == 0x47 && Behead(SLOT_MAGIC, 4) % 256 == 0x5A
    ensures Behead(SLOT_MAGIC, 7) % 256 == 0x46
  {
    assert Behead(SLOT_MAGIC, 4) == 0x4652_465A;
    assert Behead(SLOT_MAGIC, 7) == Behead(0x4652_465A, 3) == 0x46;
  }

  lemma MagicIsNotZero(w: seq<byte>)
    requires |w| == CODEWORD_LEN
    ensures HasMagic(w) ==> w[0] != 0 && w[4] != 0 && w[7] != 0
  {
    assert IntOf(0) == 0;
    hide IntOf, FromLittleEndian, Behead;
    var magic := w[..8];
    LittleEndianByte(magic, 0);
    LittleEndianByte(magic, 4);
    LittleEndianByte(magic, 7);
    MagicBytes();
  }

  /** A zero slot altered inside four consecutive bytes still lacks the magic. */
  lemma ZeroSlotAltered(zero: seq<byte>, w: seq<byte>, from: nat, until: nat)
    requires |zero| == CODEWORD_LEN && (forall i | 0 <= i < CODEWORD_LEN :: zero[i] == 0)
    requires DifferOnlyIn(zero, w, from, until) && until - from <= 4
    ensures SlotReading(w).None?
  {
    hide HasMagic, Checks;
    MagicIsNotZero(w);
    assert from > 0 ==> w[0] == w[..from][0] == zero[..from][0];
    assert until <= 4 ==> w[4] == w[until..][4 - until] == zero[until..][4 - until];
  }

  /** A codeword altered inside four consecutive bytes fails its CRC. */
  lemma CodewordAltered(sequence: nat, coord: Coordinate, w: seq<byte>, from: nat, until: nat)
    requires sequence < U64 && DifferOnlyIn(Codeword(sequence, coord), w, from, until) && until - from <= 4
    ensures w == Codeword(sequence, coord) || SlotReading(w).None?
  {
    CodewordReads(sequence, coord);
    hide Codeword, HasMagic, Checks;
    if w != Codeword(sequence, coord) {
      BurstIsDetected(Codeword(sequence, coord), w, from, until);
    }
  }

  /** A slot that differs from its old or its new contents only inside four consecutive
      bytes is never a coincidence: the CRC detects the difference for certain, and a slot
      that was never written lacks the magic. */
  lemma NoCoincidenceInFourBytes(m: Ledger, cs: seq<Coordinate>, coord: Coordinate, t: Ledger, from: nat, until: nat)
    requires Holds(m, cs) && |cs| + 1 < U64 && until - from <= 4
    requires DifferOnlyIn(SlotAt(m, NextSlot(m)), SlotAt(t, NextSlot(m)), from, until)
          || DifferOnlyIn(Codeword(NextSeq(m), coord), SlotAt(t, NextSlot(m)), from, until)
    ensures !Coincidence(t, m, coord)
  {
    hide Codeword, SlotAt, SlotReading, NextSlot, NextSeq;
    NextOf(m, cs);
    var k := |cs|;
    var w := SlotAt(t, NextSlot(m));
    if DifferOnlyIn(Codeword(NextSeq(m), coord), w, from, until) {
      CodewordAltered(k + 1, coord, w, from, until);
    } else if k < 2 {
      ZeroSlotAltered(SlotAt(m, NextSlot(m)), w, from, until);
    } else {
      CodewordAltered(k - 1, cs[k - 2], w, from, until);
    }
  }

  /** A commit whose bytes are stored in order, cut after `cut` bytes of the slot. */
  function CutCommit(m: Ledger, coord: Coordinate, cut: nat): (t: Ledger)
    requires cut <= CODEWORD_LEN
    ensures Mixture(t, m, Committed(m, coord))
  {
    Overwrite(m, NextSlot(m) * SLOT_LEN, Codeword(NextSeq(m), coord)[..cut])
  }

  lemma CutSlot(m: Ledger, coord: Coordinate, cut: nat)
    requires cut <= CODEWORD_LEN
    ensures SlotAt(CutCommit(m, coord, cut), NextSlot(m))
         == Codeword(NextSeq(m), coord)[..cut] + SlotAt(m, NextSlot(m))[cut..]
  {
    hide Codeword, NextSlot, NextSeq;
  }

  lemma MagicOfCodeword(sequence: nat, coord: Coordinate)
    ensures Codeword(sequence, coord)[..8] == LittleEndian(SLOT_MAGIC, 8)
  {
  }

  lemma CutWindow(oldSlot: seq<byte>, newSlot: seq<byte>, cut: nat)
    requires |oldSlot| == |newSlot| == CODEWORD_LEN
    requires (cut <= 12 && oldSlot[..8] == newSlot[..8]) || CRC_OFF <= cut <= CODEWORD_LEN
    ensures DifferOnlyIn(oldSlot, newSlot[..cut] + oldSlot[cut..], 8, 12)
         || DifferOnlyIn(newSlot, newSlot[..cut] + oldSlot[cut..], CRC_OFF, CODEWORD_LEN)
  {
    var w := newSlot[..cut] + oldSlot[cut..];
    if cut <= 12 {
      forall i | 0 <= i < 8 ensures w[i] == oldSlot[i] {
        assert oldSlot[..8][i] == newSlot[..8][i];
      }
      assert w[..8] == oldSlot[..8] && w[12..] == oldSlot[12..];
    } else {
      assert w[..CRC_OFF] == newSlot[..CRC_OFF];
    }
  }

  /** An in-order commit cut within its first 12 or its last 4 bytes is safe outright, and so are the first two
      commits, into slots never written, within the first 7 bytes. Only before the first commit can a late cut leave
      a report of damage. */
  lemma EarlyAndLateCutsAreSafe(m: Ledger, cs: seq<Coordinate>, coord: Coordinate, cut: nat)
    requires Holds(m, cs) && |cs| + 1 < U64
    requires cut < 8 || (cut <= 12 && 2 <= |cs|) || CRC_OFF <= cut <= CODEWORD_LEN
    ensures var t := CutCommit(m, coord, cut);
      Latest(t) == Latest(m) || Latest(t) == Latest(Committed(m, coord))
        || (cs == [] && CRC_OFF <= cut && Latest(t) == Err(SlotsAllInvalid))
  {
    hide Latest, NextSlot, NextSeq, SlotAt, Codeword, Committed, CutCommit, Coincidence;
    NoCoincidenceWhenCut(m, cs, coord, cut);
    HoldsLatest(m, cs);
    TornCommitIsSafe(m, cs, coord, CutCommit(m, coord, cut));
    if cs == [] && cut < 8 {
      FirstCommitBarelyBegun(m, coord, cut);
    }
  }

  lemma SharedMagic(m: Ledger, cs: seq<Coordinate>, coord: Coordinate)
    requires Holds(m, cs) && 2 <= |cs| && |cs| + 1 < U64
    ensures SlotAt(m, NextSlot(m))[..8] == Codeword(NextSeq(m), coord)[..8]
  {
    hide NextSlot, NextSeq, SlotAt, Codeword, LittleEndian;
    NextOf(m, cs);
    MagicOfCodeword(|cs| - 1, cs[|cs| - 2]);
    MagicOfCodeword(|cs| + 1, coord);
  }

  /** Without its last byte the magic is not there. */
  lemma MagicUnfinished(m: Ledger, cs: seq<Coordinate>, coord: Coordinate, cut: nat)
    requires Holds(m, cs) && |cs| < 2 && cut < 8
    ensures !HasMagic(SlotAt(CutCommit(m, coord, cut), NextSlot(m)))
  {
    hide NextSeq, SlotAt, Codeword, CutCommit, HasMagic;
    NextOf(m, cs);
    CutSlot(m, coord, cut);
    var oldSlot, w := SlotAt(m, NextSlot(m)), SlotAt(CutCommit(m, coord, cut), NextSlot(m));
    assert w[7] == oldSlot[7] == 0;
    MagicIsNotZero(w);
  }

  lemma FirstCommitBarelyBegun(m: Ledger, coord: Coordinate, cut: nat)
    requires Holds(m, []) && cut < 8
    ensures Latest(CutCommit(m, coord, cut)) == Latest(m)
  {
    hide NextSlot, NextSeq, SlotAt, Codeword, CutCommit, HasMagic, Checks, ReadSeq;
    var t := CutCommit(m, coord, cut);
    MagicUnfinished(m, [], coord, cut);
    MixtureKeepsOtherSlot(m, coord, t);
    ZeroSlot(m, 0);
    ZeroSlot(m, 1);
  }

  lemma NoCoincidenceWhenCut(m: Ledger, cs: seq<Coordinate>, coord: Coordinate, cut: nat)
    requires Holds(m, cs) && |cs| + 1 < U64
    requires cut < 8 || (cut <= 12 && 2 <= |cs|) || CRC_OFF <= cut <= CODEWORD_LEN
    ensures !Coincidence(CutCommit(m, coord, cut), m, coord)
  {
    hide NextSlot, NextSeq, SlotAt, Codeword, CutCommit, DifferOnlyIn, Holds, HasMagic, Checks;
    var t, oldSlot, newSlot := CutCommit(m, coord, cut), SlotAt(m, NextSlot(m)), Codeword(NextSeq(m), coord);
    CutSlot(m, coord, cut);
    if |cs| < 2 && cut < 8 {
      MagicUnfinished(m, cs, coord, cut);
    } else {
      if 2 <= |cs| { SharedMagic(m, cs, coord); }
      CutWindow(oldSlot, newSlot, cut);
      hide Coincidence;
      if DifferOnlyIn(oldSlot, SlotAt(t, NextSlot(m)), 8, 12) {
        NoCoincidenceInFourBytes(m, cs, coord, t, 8, 12);
      } else {
        NoCoincidenceInFourBytes(m, cs, coord, t, CRC_OFF, CODEWORD_LEN);
      }
    }
  }

  // ---- Damage ----

  /** What the reader makes of any ledger: damage is reported if and only if some slot carries the magic and none passes
      the checks, no commit if and only if no slot carries it, and otherwise a valid slot with the highest number. */
  lemma ReaderOutcome(m: Ledger)
    ensures var a, b := SlotAt(m, 0), SlotAt(m, 1);
      && (Latest(m) == Err(SlotsAllInvalid) <==> (HasMagic(a) || HasMagic(b)) && SlotReading(a).None? && SlotReading(b).None?)
      && (Latest(m) == Ok(None) <==> !HasMagic(a) && !HasMagic(b))
      && (Latest(m).Ok? && Latest(m).value.Some? ==>
           && (Latest(m).value == SlotReading(a) || Latest(m).value == SlotReading(b))
           && (SlotReading(a).Some? ==> SlotReading(a).value.sequence <= Latest(m).value.value.sequence)
           && (SlotReading(b).Some? ==> SlotReading(b).value.sequence <= Latest(m).value.value.sequence))
  {
    hide SlotAt, Checks;
  }

  /** `w` is `good` altered inside four consecutive bytes behind the magic. */
  ghost predicate Damaged(good: seq<byte>, w: seq<byte>) {
    w != good && exists from: nat, until: nat :: 8 <= from && until - from <= 4 && DifferOnlyIn(good, w, from, until)
  }

  lemma MagicKept(good: seq<byte>, w: seq<byte>, from: nat, until: nat)
    requires |good| == CODEWORD_LEN && DifferOnlyIn(good, w, from, until) && 8 <= from
    ensures |w| == CODEWORD_LEN && HasMagic(w) == HasMagic(good)
  {
    hide FromLittleEndian;
    assert w[..8] == w[..from][..8] && good[..8] == good[..from][..8];
  }

  /** A damaged codeword still carries the magic but fails the checks. */
  lemma DamagedSlot(sequence: nat, coord: Coordinate, w: seq<byte>)
    requires sequence < U64 && |w| == CODEWORD_LEN && Damaged(Codeword(sequence, coord), w)
    ensures HasMagic(w) && SlotReading(w).None?
  {
    hide Codeword, Checks, HasMagic, DifferOnlyIn;
    var from: nat, until: nat :| 8 <= from && until - from <= 4 && DifferOnlyIn(Codeword(sequence, coord), w, from, until);
    CodewordReads(sequence, coord);
    CodewordAltered(sequence, coord, w, from, until);
    MagicKept(Codeword(sequence, coord), w, from, until);
  }

  /** After two or more commits, damage to both codewords is reported, and never taken for a ledger without commits. */
  lemma DamageOfBothIsReported(m: Ledger, cs: seq<Coordinate>, t: Ledger)
    requires Holds(m, cs) && 2 <= |cs| < U64
    requires Damaged(SlotAt(m, 0), SlotAt(t, 0)) && Damaged(SlotAt(m, 1), SlotAt(t, 1))
    ensures Latest(t) == Err(SlotsAllInvalid)
  {
    hide Codeword, SlotAt, SlotReading, HasMagic, Latest, Damaged;
    var k := |cs|;
    DamagedSlot(k, cs[k - 1], SlotAt(t, (k - 1) % 2));
    DamagedSlot(k - 1, cs[k - 2], SlotAt(t, k % 2));
    ReaderOutcome(t);
  }

  /** Damage to one of two codewords costs at most that one commit: the reader gets the other. */
  lemma DamageOfOneCostsOne(m: Ledger, cs: seq<Coordinate>, t: Ledger, slot: nat, from: nat, until: nat)
    requires Holds(m, cs) && 2 <= |cs| < U64 && slot < SLOTS && SlotAt(t, 1 - slot) == SlotAt(m, 1 - slot)
    requires DifferOnlyIn(SlotAt(m, slot), SlotAt(t, slot), from, until) && until - from <= 4
    requires SlotAt(m, slot) != SlotAt(t, slot)
    ensures var k := |cs|;
      Latest(t) == Ok(Some(if slot == k % 2 then Reading(k, cs[k - 1]) else Reading(k - 1, cs[k - 2])))
  {
    hide Codeword, SlotAt, SlotReading, HasMagic, DifferOnlyIn;
    var k := |cs|;
    CodewordReads(k, cs[k - 1]);
    CodewordReads(k - 1, cs[k - 2]);
    if slot == k % 2 {
      CodewordAltered(k - 1, cs[k - 2], SlotAt(t, slot), from, until);
    } else {
      CodewordAltered(k, cs[k - 1], SlotAt(t, slot), from, until);
    }
  }

  /** A first commit cut inside its body, from the complete magic on: no checksum has been stored yet, and the reader
      reports the damage if and only if the checksum of what is there is not zero. */
  lemma FirstCutIsReported(m: Ledger, coord: Coordinate, cut: nat)
    requires Holds(m, []) && 8 <= cut <= CRC_OFF
    ensures var t := CutCommit(m, coord, cut);
      Latest(t) == Err(SlotsAllInvalid) <==> Crc(SlotAt(t, 0)[..CRC_OFF]) != 0
  {
    hide SlotAt, Codeword, CutCommit, HasMagic, Checks, NextSlot, NextSeq, SlotReading, Latest, Crc;
    var t := CutCommit(m, coord, cut);
    NextOf(m, []);
    CutSlot(m, coord, cut);
    MixtureKeepsOtherSlot(m, coord, t);
    ZeroSlot(m, 1);
    FirstCutSlot(m, coord, cut, SlotAt(t, 0));
    ReaderOutcome(t);
  }

  lemma FirstCutSlot(m: Ledger, coord: Coordinate, cut: nat, w: seq<byte>)
    requires SlotIsZero(m, 0) && 8 <= cut <= CRC_OFF && |w| == CODEWORD_LEN
    requires w == Codeword(1, coord)[..cut] + SlotAt(m, 0)[cut..]
    ensures HasMagic(w) && (SlotReading(w).None? <==> Crc(w[..CRC_OFF]) != 0)
  {
    hide SlotAt, Codeword, HasMagic, Checks;
    CodewordReads(1, coord);
    MagicKept(Codeword(1, coord), w, cut, CODEWORD_LEN) by {
      assert w[..cut] == Codeword(1, coord)[..cut] && w[CODEWORD_LEN..] == Codeword(1, coord)[CODEWORD_LEN..];
    }
    var tail := w[CRC_OFF..];
    assert forall i | 0 <= i < 4 :: tail[i] == SlotAt(m, 0)[CRC_OFF + i];
    assert tail == [0, 0, 0, 0];
    ZeroChecks(w);
  }

  lemma ZeroChecks(w: seq<byte>)
    requires |w| == CODEWORD_LEN && w[CRC_OFF..] == [0, 0, 0, 0]
    ensures Checks(w) <==> Crc(w[..CRC_OFF]) == 0
  {
    hide Crc;
  }

  // ---- The shared mapping ----

  /** `copy_from_slice` into the mapping. */
  method CopyFromSlice(mapping: array<byte>, at: nat, piece: seq<byte>)
    requires at + |piece| <= mapping.Length
    modifies mapping
    ensures mapping[..] == Overwrite(old(mapping[..]), at, piece)
  {
    for i := 0 to |piece|
      invariant mapping[..] == Overwrite(old(mapping[..]), at, piece[..i])
    {
      mapping[at + i] := piece[i];
    }
    assert piece[..|piece|] == piece;
  }

  lemma OverwriteAdjacent(m: seq<byte>, at: nat, a: seq<byte>, b: seq<byte>)
    requires at + |a| + |b| <= |m|
    ensures Overwrite(Overwrite(m, at, a), at + |a|, b) == Overwrite(m, at, a + b)
  {
  }

  /** The worker's side of the mapping. */
  class CrashLedgerWriter {
    const mapping: array<byte>

    predicate Valid() {
      mapping.Length == LEDGER_LEN
    }

    constructor ()
      ensures Valid() && fresh(mapping) && mapping[..] == ZeroLedger()
    {
      mapping := new byte[LEDGER_LEN](i => 0);
    }

    /** Body first, CRC last. */
    method CommitRaw(coord: Coordinate)
      requires Valid()
      modifies mapping
      ensures mapping[..] == Committed(old(mapping[..]), coord)
    {
      hide Crc, LittleEndian, FromLittleEndian, WordBytes;
      ghost var m := mapping[..];
      var slot, sequence := NextSlot(mapping[..]), NextSeq(mapping[..]);
      var base := slot * SLOT_LEN;
      CopyFromSlice(mapping, base, LittleEndian(SLOT_MAGIC, 8));
      CopyFromSlice(mapping, base + SEQ_OFF, LittleEndian(sequence, 8));
      OverwriteAdjacent(m, base, LittleEndian(SLOT_MAGIC, 8), LittleEndian(sequence, 8));
      CopyFromSlice(mapping, base + COORD_OFF, coord);
      OverwriteAdjacent(m, base, LittleEndian(SLOT_MAGIC, 8) + LittleEndian(sequence, 8), coord);
      assert mapping[..][base..base + CRC_OFF] == Body(sequence, coord);
      var crc := Compute(mapping[base..base + CRC_OFF]);
      CopyFromSlice(mapping, base + CRC_OFF, WordBytes(crc));
      OverwriteAdjacent(m, base, Body(sequence, coord), WordBytes(crc));
    }

    method CommitEcho(input: seq<byte>) returns (r: Result<(), LedgerError>)
      requires Valid()
      modifies mapping
      ensures r == if |input| <= MAX_ECHO_LEN then Ok(()) else Err(EchoTooLong)
      ensures mapping[..] == if r.Ok? then Echoed(old(mapping[..]), input) else old(mapping[..])
    {
      if |input| > MAX_ECHO_LEN {
        return Err(EchoTooLong);
      }
      CopyFromSlice(mapping, ECHO_LEN_OFF, LittleEndian(|input|, 4));
      CopyFromSlice(mapping, ECHO_BYTES_OFF, input);
      return Ok(());
    }
  }

  /** The reader's slices of a whole slot are those of the slot's codeword. */
  lemma SlotParts(m: Ledger, slot: nat, body: seq<byte>)
    requires slot < SLOTS && body == m[slot * SLOT_LEN..slot * SLOT_LEN + SLOT_LEN]
    ensures var w := SlotAt(m, slot);
      && body[..8] == w[..8] && body[SEQ_OFF..COORD_OFF] == w[SEQ_OFF..COORD_OFF]
      && body[COORD_OFF..CRC_OFF] == w[COORD_OFF..CRC_OFF]
      && body[..CRC_OFF] == w[..CODEWORD_LEN - 4]
      && body[CRC_OFF..CODEWORD_LEN] == w[CODEWORD_LEN - 4..]
  {
    assert body[..CODEWORD_LEN] == SlotAt(m, slot);
  }

  /** The coordinator's side of the same mapping. */
  class CrashLedgerReader {
    const mapping: array<byte>

    predicate Valid() {
      mapping.Length == LEDGER_LEN
    }

    constructor (mapping: array<byte>)
      requires mapping.Length == LEDGER_LEN
      ensures Valid() && this.mapping == mapping
    {
      this.mapping := mapping;
    }

    method ReadEcho() returns (input: seq<byte>)
      requires Valid()
      ensures input == Echo(mapping[..])
    {
      var n := FromLittleEndian(mapping[ECHO_LEN_OFF..ECHO_BYTES_OFF]);
      if n == 0 || n > MAX_ECHO_LEN {
        return [];
      }
      return mapping[ECHO_BYTES_OFF..ECHO_BYTES_OFF + n];
    }

    /** Walks over the slots keeping the best valid one. */
    method LatestRaw() returns (r: Result<Option<Reading>, LedgerError>)
      requires Valid()
      ensures r == Latest(mapping[..])
    {
      hide Crc, FromLittleEndian, BytesWord;
      var best: Option<Reading> := None;
      var anyMagic := false;
      for slot := 0 to SLOTS
        invariant slot == 0 ==> best == None && !anyMagic
        invariant slot == 1 ==> best == SlotReading(SlotAt(mapping[..], 0)) && anyMagic == HasMagic(SlotAt(mapping[..], 0))
        invariant slot == 2 ==> best == Newer(SlotReading(SlotAt(mapping[..], 0)), SlotReading(SlotAt(mapping[..], 1)))
        invariant slot == 2 ==> anyMagic == (HasMagic(SlotAt(mapping[..], 0)) || HasMagic(SlotAt(mapping[..], 1)))
      {
        var base := slot * SLOT_LEN;
        var body := mapping[base..base + SLOT_LEN];
        SlotParts(mapping[..], slot, body);
        if FromLittleEndian(body[..8]) != SLOT_MAGIC {
          continue;
        }
        anyMagic := true;
        var crc := Compute(body[..CRC_OFF]);
        if crc != BytesWord(body[CRC_OFF..CODEWORD_LEN]) {
          continue;
        }
        var sequence := FromLittleEndian(body[SEQ_OFF..COORD_OFF]);
        if best.None? || best.value.sequence < sequence {
          best := Some(Reading(sequence, body[COORD_OFF..CRC_OFF]));
        }
      }
      if best.None? && anyMagic {
        return Err(SlotsAllInvalid);
      }
      return Ok(best);
    }
  }
}
