/**
 Framing between the coordinator and its workers: magic, version, kind and length in a
 17-byte header whose last four bytes are unused, the payload, and a CRC-32 of all that.
 */
module Protocol {
  import opened Wrappers
  import opened Bytes
  import opened Crc32

  const PROTOCOL_MAJOR: nat := 1
  const PROTOCOL_MINOR: nat := 0
  const MAX_FRAME_LEN: nat := 0x10_0000
  const HEADER_LEN: nat := 17

  datatype MsgKind = Hello | Capabilities | WorkOrder | WorkResult | Discovery | Heartbeat | Shutdown | ErrorNote

  datatype Message = Message(kind: MsgKind, payload: seq<byte>)

  /** A decoded frame; its major version is always `PROTOCOL_MAJOR`. */
  datatype Frame = Frame(minor: nat, kind: MsgKind, payload: seq<byte>)

  datatype Error =
    | BadMagic | UnsupportedVersion(major: nat) | UnknownKind | BoundExceeded(got: nat)
    | ChecksumMismatch | UnexpectedEof

  /** "FRFZ". */
  function Magic(): (r: seq<byte>)
    ensures |r| == 4
  {
    [0x46, 0x52, 0x46, 0x5A]
  }

  function KindByte(kind: MsgKind): byte {
    match kind
    case Hello => 1
    case Capabilities => 2
    case WorkOrder => 3
    case WorkResult => 4
    case Discovery => 5
    case Heartbeat => 6
    case Shutdown => 7
    case ErrorNote => 8
  }

  function KindFromByte(b: byte): Option<MsgKind> {
    match b
    case 1 => Some(Hello)
    case 2 => Some(Capabilities)
    case 3 => Some(WorkOrder)
    case 4 => Some(WorkResult)
    case 5 => Some(Discovery)
    case 6 => Some(Heartbeat)
    case 7 => Some(Shutdown)
    case 8 => Some(ErrorNote)
    case _ => None
  }

  lemma KindRoundTrip(kind: MsgKind, b: byte)
    ensures KindFromByte(KindByte(kind)) == Some(kind)
    ensures KindFromByte(b) == Some(kind) ==> b == KindByte(kind)
  {
  }

  // ---- Byte layout ----

  function Header(minor: nat, kind: MsgKind, length: nat, padding: seq<byte>): (r: seq<byte>)
    requires |padding| == 4
    ensures |r| == HEADER_LEN
  {
    Magic() + LittleEndian(PROTOCOL_MAJOR, 2) + LittleEndian(minor, 2) + [KindByte(kind)]
    + LittleEndian(length, 4) + padding
  }

  /** A body followed by its CRC. */
  function Sealed(body: seq<byte>): (r: seq<byte>)
    ensures |r| == |body| + 4
  {
    body + WordBytes(Crc(body))
  }

  /** Every byte string the reader can take for a frame. */
  function FrameBytes(frame: Frame, padding: seq<byte>): (r: seq<byte>)
    requires |padding| == 4
    ensures |r| == HEADER_LEN + |frame.payload| + 4
  {
    Sealed(Header(frame.minor, frame.kind, |frame.payload|, padding) + frame.payload)
  }

  function Padding(): (r: seq<byte>)
    ensures |r| == 4
  {
    [0, 0, 0, 0]
  }

  /** The bytes `encode_frame` appends. */
  function Encoded(message: Message): (r: seq<byte>)
    ensures |r| == HEADER_LEN + |message.payload| + 4
  {
    FrameBytes(ToFrame(message), Padding())
  }

  function ToFrame(message: Message): Frame {
    Frame(PROTOCOL_MINOR, message.kind, message.payload)
  }

  /** What `encode_frame` accepts. */
  predicate Encodable(message: Message) {
    HEADER_LEN + |message.payload| <= MAX_FRAME_LEN
  }

  // ---- Reading one frame ----

  datatype Parsed = Parsed(frame: Frame, rest: seq<byte>)

  /** The reader's checks of the header, in order, and the payload length. */
  function HeaderLength(header: seq<byte>): Result<nat, Error>
    requires |header| == HEADER_LEN
  {
    var major := FromLittleEndian(header[4..6]);
    var length := FromLittleEndian(header[9..13]);
    if header[..4] != Magic() then Err(BadMagic)
    else if major != PROTOCOL_MAJOR then Err(UnsupportedVersion(major))
    else if KindFromByte(header[8]).None? then Err(UnknownKind)
    else if length > MAX_FRAME_LEN then Err(BoundExceeded(length))
    else Ok(length)
  }

  /** `read_frame` as a function of the bytes left in the stream. */
  function Parse(s: seq<byte>): Result<Parsed, Error> {
    if |s| < HEADER_LEN then Err(UnexpectedEof)
    else
      match HeaderLength(s[..HEADER_LEN])
      case Err(e) => Err(e)
      case Ok(length) =>
        var end := HEADER_LEN + length + 4;
        if |s| < end then Err(UnexpectedEof)
        else if !Checks(s[..end]) then Err(ChecksumMismatch)
        else
          Ok(Parsed(Frame(FromLittleEndian(s[6..8]), KindFromByte(s[8]).value, s[HEADER_LEN..end - 4]), s[end..]))
  }

  /** Frames the header can carry. */
  predicate Carriable(frame: Frame) {
    frame.minor < 0x1_0000 && |frame.payload| <= MAX_FRAME_LEN
  }

  lemma Bounds()
    ensures Bound(2) == 0x1_0000 && Bound(4) == 0x1_0000_0000
  {
  }

  lemma HeaderFields(minor: nat, kind: MsgKind, length: nat, padding: seq<byte>)
    requires |padding| == 4
    ensures var h := Header(minor, kind, length, padding);
      && h[..4] == Magic() && h[4..6] == LittleEndian(PROTOCOL_MAJOR, 2) && h[6..8] == LittleEndian(minor, 2)
      && h[8] == KindByte(kind) && h[9..13] == LittleEndian(length, 4) && h[13..] == padding
  {
    hide LittleEndian, KindByte, Magic;
  }

  lemma HeaderParses(minor: nat, kind: MsgKind, length: nat, padding: seq<byte>)
    requires |padding| == 4 && minor < 0x1_0000 && length <= MAX_FRAME_LEN
    ensures var h := Header(minor, kind, length, padding);
      && HeaderLength(h) == Ok(length) && FromLittleEndian(h[6..8]) == minor
      && KindFromByte(h[8]) == Some(kind)
  {
    hide LittleEndian, FromLittleEndian, KindByte, KindFromByte, Magic, Header;
    Bounds();
    HeaderFields(minor, kind, length, padding);
    DecodeEncode(PROTOCOL_MAJOR, 2);
    DecodeEncode(minor, 2);
    DecodeEncode(length, 4);
    KindRoundTrip(kind, 0);
  }

  /** Conversely, an accepted header has exactly the layout the encoder writes. */
  lemma AcceptedHeader(h: seq<byte>)
    requires |h| == HEADER_LEN && HeaderLength(h).Ok?
    ensures var minor, kind := FromLittleEndian(h[6..8]), KindFromByte(h[8]);
      && minor < 0x1_0000 && HeaderLength(h).value <= MAX_FRAME_LEN
      && kind.Some? && h == Header(minor, kind.value, HeaderLength(h).value, h[13..])
  {
    hide LittleEndian, FromLittleEndian, KindByte, KindFromByte, Magic;
    Bounds();
    EncodeDecode(h[4..6]);
    EncodeDecode(h[6..8]);
    EncodeDecode(h[9..13]);
    KindRoundTrip(KindFromByte(h[8]).value, h[8]);
    HeaderPieces(h);
  }

  lemma HeaderPieces(h: seq<byte>)
    requires |h| == HEADER_LEN
    ensures h == h[..4] + h[4..6] + h[6..8] + [h[8]] + h[9..13] + h[13..]
  {
  }

  lemma SealedChecks(body: seq<byte>)
    ensures Checks(Sealed(body))
  {
    hide Crc, WordBytes, BytesWord;
    WordRoundTrip(Crc(body));
    assert Sealed(body)[..|body|] == body;
  }

  lemma ChecksSealed(codeword: seq<byte>)
    requires |codeword| >= 4 && Checks(codeword)
    ensures codeword == Sealed(codeword[..|codeword| - 4])
  {
    hide Crc, WordBytes, BytesWord;
    BytesRoundTrip(codeword[|codeword| - 4..]);
  }

  lemma FrameBytesParts(frame: Frame, padding: seq<byte>, rest: seq<byte>)
    requires |padding| == 4
    ensures var s := FrameBytes(frame, padding) + rest;
      var end := HEADER_LEN + |frame.payload| + 4;
      && s[..HEADER_LEN] == Header(frame.minor, frame.kind, |frame.payload|, padding)
      && s[HEADER_LEN..end - 4] == frame.payload && s[..end] == FrameBytes(frame, padding) && s[end..] == rest
  {
    hide Header, Crc, WordBytes;
  }

  lemma FrameParses(frame: Frame, padding: seq<byte>, rest: seq<byte>)
    requires |padding| == 4 && Carriable(frame)
    ensures Parse(FrameBytes(frame, padding) + rest) == Ok(Parsed(frame, rest))
  {
    hide Header, HeaderLength, Checks, Sealed, KindFromByte, FromLittleEndian, Crc;
    var s, h := FrameBytes(frame, padding) + rest, Header(frame.minor, frame.kind, |frame.payload|, padding);
    FrameBytesParts(frame, padding, rest);
    HeaderParses(frame.minor, frame.kind, |frame.payload|, padding);
    SealedChecks(h + frame.payload);
    assert s[6..8] == s[..HEADER_LEN][6..8] && s[8] == s[..HEADER_LEN][8];
  }

  lemma ParsedIsFrame(s: seq<byte>)
    requires Parse(s).Ok?
    ensures var p := Parse(s).value;
      Carriable(p.frame) && |s| >= HEADER_LEN && s == FrameBytes(p.frame, s[13..17]) + p.rest
  {
    hide Header, HeaderLength, Checks, Sealed, KindFromByte, FromLittleEndian, Crc;
    var p, h := Parse(s).value, s[..HEADER_LEN];
    AcceptedHeader(h);
    var end := HEADER_LEN + HeaderLength(h).value + 4;
    ChecksSealed(s[..end]);
    assert h[6..8] == s[6..8] && h[8] == s[8] && h[13..] == s[13..17];
    assert s[..end][..|s[..end]| - 4] == h + p.frame.payload;
    assert s == s[..end] + p.rest;
  }

  /** Main result for one frame: the reader accepts exactly the byte strings of the frame
      layout, for any minor version and any contents of the four unused bytes. */
  lemma ParseAcceptsExactlyFrames(s: seq<byte>, frame: Frame, rest: seq<byte>)
    ensures Parse(s) == Ok(Parsed(frame, rest))
       <==> Carriable(frame) && exists padding :: |padding| == 4 && s == FrameBytes(frame, padding) + rest
  {
    hide Parse, FrameBytes;
    if Parse(s) == Ok(Parsed(frame, rest)) {
      ParsedIsFrame(s);
      assert |s[13..17]| == 4;
    }
    if Carriable(frame) {
      forall padding | |padding| == 4 && s == FrameBytes(frame, padding) + rest
        ensures Parse(s) == Ok(Parsed(frame, rest))
      {
        FrameParses(frame, padding, rest);
      }
    }
  }

  /** A frame cut short is never accepted. */
  lemma CutFrameFails(frame: Frame, padding: seq<byte>, cut: nat)
    requires |padding| == 4 && Carriable(frame) && cut < |FrameBytes(frame, padding)|
    ensures Parse(FrameBytes(frame, padding)[..cut]) == Err(UnexpectedEof)
  {
    hide Header, HeaderLength, Checks, Sealed, KindFromByte, FromLittleEndian, Crc;
    var s := FrameBytes(frame, padding);
    FrameBytesParts(frame, padding, []);
    assert s + [] == s;
    HeaderParses(frame.minor, frame.kind, |frame.payload|, padding);
    if cut >= HEADER_LEN {
      assert s[..cut][..HEADER_LEN] == s[..HEADER_LEN];
    }
  }

  /** A frame altered inside four consecutive bytes that avoid the length field is always
      rejected, and by the checksum when the change lies behind the length field. */
  lemma AlteredFrameIsRejected(frame: Frame, padding: seq<byte>, bad: seq<byte>, rest: seq<byte>, from: nat, until: nat)
    requires |padding| == 4 && Carriable(frame)
    requires DifferOnlyIn(FrameBytes(frame, padding), bad, from, until) && until - from <= 4
    requires bad != FrameBytes(frame, padding) && (until <= 9 || 13 <= from)
    ensures Parse(bad + rest).Err?
    ensures 13 <= from ==> Parse(bad + rest) == Err(ChecksumMismatch)
  {
    hide Header, HeaderLength, Checks, Sealed, KindFromByte, FromLittleEndian, Crc;
    var good, s := FrameBytes(frame, padding), bad + rest;
    FrameBytesParts(frame, padding, []);
    assert good + [] == good;
    HeaderParses(frame.minor, frame.kind, |frame.payload|, padding);
    SealedChecks(Header(frame.minor, frame.kind, |frame.payload|, padding) + frame.payload);
    BurstIsDetected(good, bad, from, until);
    assert s[..|bad|] == bad;
    SameLengthField(good, bad, rest, from, until);
  }

  /** Changes outside the length field leave the length the reader extracts. */
  lemma SameLengthField(good: seq<byte>, bad: seq<byte>, rest: seq<byte>, from: nat, until: nat)
    requires DifferOnlyIn(good, bad, from, until) && (until <= 9 || 13 <= from) && |good| >= HEADER_LEN
    requires HeaderLength(good[..HEADER_LEN]).Ok?
    ensures var g, b := HeaderLength(good[..HEADER_LEN]), HeaderLength((bad + rest)[..HEADER_LEN]);
      (b.Ok? ==> b == g) && (13 <= from ==> b == g)
  {
    hide KindFromByte, FromLittleEndian, Magic;
    var g, b := good[..HEADER_LEN], (bad + rest)[..HEADER_LEN];
    forall i | 0 <= i < HEADER_LEN && !(from <= i < until) ensures g[i] == b[i] {
      if i < from {
        assert g[i] == good[..from][i] == bad[..from][i];
      } else {
        assert g[i] == good[until..][i - until] == bad[until..][i - until];
      }
    }
    assert g[9..13] == b[9..13];
    if 13 <= from {
      assert g[..4] == b[..4] && g[4..6] == b[4..6] && g[8] == b[8];
    }
  }

  // ---- The format byte by byte, and every rejection ----

  /** The fields of a frame that the reader takes: the magic "FRFZ", version 1 and the minor version, one kind byte, the
      payload length, four bytes nobody reads, the payload, and the CRC of all that. */
  lemma FrameLayout(frame: Frame, padding: seq<byte>)
    requires |padding| == 4 && Carriable(frame)
    ensures var p, n := FrameBytes(frame, padding), |frame.payload|;
      && |p| == 21 + n && p[..4] == [0x46, 0x52, 0x46, 0x5A]
      && FromLittleEndian(p[4..6]) == 1 && FromLittleEndian(p[6..8]) == frame.minor && p[8] == KindByte(frame.kind)
      && FromLittleEndian(p[9..13]) == n && p[13..17] == padding && p[17..17 + n] == frame.payload
      && BytesWord(p[17 + n..]) == Crc(p[..17 + n])
  {
    hide LittleEndian, FromLittleEndian, KindByte, Header, Crc, WordBytes, BytesWord;
    var p, h := FrameBytes(frame, padding), Header(frame.minor, frame.kind, |frame.payload|, padding);
    FrameBytesParts(frame, padding, []);
    assert p + [] == p;
    assert p[..17] == h;
    HeaderFields(frame.minor, frame.kind, |frame.payload|, padding);
    assert p[..4] == h[..4] && p[4..6] == h[4..6] && p[6..8] == h[6..8] && p[9..13] == h[9..13] && p[13..17] == h[13..];
    Bounds();
    DecodeEncode(PROTOCOL_MAJOR, 2);
    DecodeEncode(frame.minor, 2);
    DecodeEncode(|frame.payload|, 4);
    SealedParts(h + frame.payload);
  }

  lemma SealedParts(body: seq<byte>)
    ensures Sealed(body)[..|body|] == body && BytesWord(Sealed(body)[|body|..]) == Crc(body)
  {
    hide Crc, WordBytes, BytesWord;
    WordRoundTrip(Crc(body));
  }

  /** What the reader holds against a byte string, if anything: the checks in their order. */
  lemma RejectionReasons(s: seq<byte>)
    ensures |s| < 17 ==> Parse(s) == Err(UnexpectedEof)
    ensures |s| >= 17 ==>
      var major, n := FromLittleEndian(s[4..6]), FromLittleEndian(s[9..13]);
      if s[..4] != [0x46, 0x52, 0x46, 0x5A] then Parse(s) == Err(BadMagic)
      else if major != 1 then Parse(s) == Err(UnsupportedVersion(major))
      else if !(1 <= s[8] <= 8) then Parse(s) == Err(UnknownKind)
      else if n > 0x10_0000 then Parse(s) == Err(BoundExceeded(n))
      else if |s| < 21 + n then Parse(s) == Err(UnexpectedEof)
      else if Crc(s[..17 + n]) != BytesWord(s[17 + n..21 + n]) then Parse(s) == Err(ChecksumMismatch)
      else Parse(s).Ok? && Parse(s).value.rest == s[21 + n..]
  {
    hide FromLittleEndian, Crc, BytesWord;
    if |s| >= 17 {
      var h, n := s[..17], FromLittleEndian(s[9..13]);
      assert h[..4] == s[..4] && h[4..6] == s[4..6] && h[8] == s[8] && h[9..13] == s[9..13];
      KnownKinds(s[8]);
      if |s| >= 21 + n {
        assert s[..21 + n][..17 + n] == s[..17 + n] && s[..21 + n][17 + n..] == s[17 + n..21 + n];
      }
    }
  }

  lemma KnownKinds(b: byte)
    ensures KindFromByte(b).Some? <==> 1 <= b <= 8
  {
  }

  // ---- Streams ----

  /** The frames read, the error that ended the reading, and the bytes no frame was read from. */
  datatype ReadResult = ReadResult(frames: seq<Frame>, end: Error, left: seq<byte>)

  /** Reading frames until the first error. */
  function ReadAll(s: seq<byte>): ReadResult
    decreases |s|
  {
    match Parse(s)
    case Err(e) => ReadResult([], e, s)
    case Ok(p) =>
      ParsedIsFrame(s);
      var more := ReadAll(p.rest);
      ReadResult([p.frame] + more.frames, more.end, more.left)
  }

  function Stream(messages: seq<Message>): seq<byte> {
    if messages == [] then [] else Encoded(messages[0]) + Stream(messages[1..])
  }

  function ToFrames(messages: seq<Message>): (r: seq<Frame>)
    ensures |r| == |messages|
  {
    if messages == [] then [] else [ToFrame(messages[0])] + ToFrames(messages[1..])
  }

  /** How many messages lie wholly within the first `cut` bytes of their stream. */
  function Whole(messages: seq<Message>, cut: nat): (k: nat)
    ensures k <= |messages|
  {
    if messages == [] || |Encoded(messages[0])| > cut then 0
    else 1 + Whole(messages[1..], cut - |Encoded(messages[0])|)
  }

  /** `Whole` is the largest number of leading messages whose stream fits in `cut` bytes. */
  lemma {:induction false} WholeIsLargest(messages: seq<Message>, cut: nat, k: nat)
    requires k <= |messages|
    ensures |Stream(messages[..k])| <= cut <==> k <= Whole(messages, cut)
  {
    hide Encoded;
    if k > 0 {
      assert messages[..k][0] == messages[0] && messages[..k][1..] == messages[1..][..k - 1];
      if |Encoded(messages[0])| <= cut {
        WholeIsLargest(messages[1..], cut - |Encoded(messages[0])|, k - 1);
      }
    }
  }

  /** The bytes of the message that a cut of the stream tears, as far as they are there. */
  function Torn(messages: seq<Message>, cut: nat): seq<byte>
    requires cut <= |Stream(messages)|
  {
    WholeIsLargest(messages, cut, Whole(messages, cut));
    Stream(messages)[|Stream(messages[..Whole(messages, cut)])|..cut]
  }

  lemma TornStep(messages: seq<Message>, cut: nat)
    requires messages != [] && |Encoded(messages[0])| <= cut <= |Stream(messages)|
    ensures Torn(messages, cut) == Torn(messages[1..], cut - |Encoded(messages[0])|)
  {
    hide Encoded, Stream;
    var first, rest := Encoded(messages[0]), messages[1..];
    var k := Whole(rest, cut - |first|);
    WholeIsLargest(rest, cut - |first|, k);
    StreamStep(messages, k);
    StreamStep(messages, |rest|);
    assert messages[..|rest| + 1] == messages && rest[..|rest|] == rest;
    SliceBehind(first, Stream(rest), |Stream(rest[..k])|, cut - |first|);
  }

  lemma StreamStep(messages: seq<Message>, k: nat)
    requires k < |messages|
    ensures Stream(messages[..k + 1]) == Encoded(messages[0]) + Stream(messages[1..][..k])
  {
    hide Encoded;
    assert messages[..k + 1][0] == messages[0] && messages[..k + 1][1..] == messages[1..][..k];
  }

  lemma SliceBehind(first: seq<byte>, tail: seq<byte>, from: nat, until: nat)
    requires from <= until <= |tail|
    ensures (first + tail)[|first| + from..|first| + until] == tail[from..until]
  {
  }

  /** Main result for streams: any prefix of a stream yields exactly the wholly contained
      messages and then end of input, leaving the bytes of the torn message. */
  lemma {:induction false} PrefixYieldsWholeFrames(messages: seq<Message>, cut: nat)
    requires (forall m | m in messages :: Encodable(m)) && cut <= |Stream(messages)|
    ensures ReadAll(Stream(messages)[..cut])
         == ReadResult(ToFrames(messages[..Whole(messages, cut)]), UnexpectedEof, Torn(messages, cut))
  {
    hide Encoded, Parse, FrameBytes, Padding, Encodable, Carriable;
    if messages == [] {
      assert Parse([]) == Err(UnexpectedEof) by { EmptyFails(); }
    } else {
      var first, rest := Encoded(messages[0]), messages[1..];
      var s := Stream(messages)[..cut];
      EncodedParts(messages[0]);
      if cut < |first| {
        assert s == first[..cut];
        CutFrameFails(ToFrame(messages[0]), Padding(), cut);
        assert messages[..0] == [];
      } else {
        var tail := Stream(rest)[..cut - |first|];
        assert s == first + tail;
        FrameParses(ToFrame(messages[0]), Padding(), tail);
        PrefixYieldsWholeFrames(rest, cut - |first|);
        TornStep(messages, cut);
        hide Torn;
        var k := Whole(rest, cut - |first|);
        assert messages[..k + 1][1..] == rest[..k];
      }
    }
  }

  lemma EmptyFails()
    ensures Parse([]) == Err(UnexpectedEof)
  {
  }

  lemma EncodedParts(message: Message)
    ensures Encoded(message) == FrameBytes(ToFrame(message), Padding())
    ensures Encodable(message) ==> Carriable(ToFrame(message))
  {
  }

  /** Round trip: reading back a whole stream yields its messages and consumes every byte. */
  lemma StreamRoundTrip(messages: seq<Message>)
    requires forall m | m in messages :: Encodable(m)
    ensures ReadAll(Stream(messages)) == ReadResult(ToFrames(messages), UnexpectedEof, [])
  {
    hide ReadAll, Encoded, Encodable, Stream;
    var s := Stream(messages);
    PrefixYieldsWholeFrames(messages, |s|);
    assert messages[..|messages|] == messages;
    WholeIsLargest(messages, |s|, |messages|);
    assert s[..|s|] == s && s[|s|..] == [];
  }

  // ---- The code ----

  function Blank(n: nat): (r: seq<byte>)
    ensures |r| == n
  {
    seq(n, i => 0)
  }

  /** A growable byte vector. */
  class ByteVector {
    var data: seq<byte>

    constructor ()
      ensures data == []
    {
      data := [];
    }

    /** `resize(n, 0)`. */
    method Resize(n: nat)
      requires |data| <= n
      modifies this
      ensures data == old(data) + Blank(n - |old(data)|)
    {
      data := data + Blank(n - |data|);
    }

    /** `self[at..at + |piece|].copy_from_slice(piece)`. */
    method CopyFromSlice(at: nat, piece: seq<byte>)
      requires at + |piece| <= |data|
      modifies this
      ensures data == Overwrite(old(data), at, piece)
    {
      data := Overwrite(data, at, piece);
    }

    method ExtendFromSlice(piece: seq<byte>)
      modifies this
      ensures data == old(data) + piece
    {
      data := data + piece;
    }
  }

  /** `encode_frame`: appends one frame, or nothing when the frame would be too long. */
  method EncodeFrame(kind: MsgKind, payload: seq<byte>, out: ByteVector) returns (r: Result<(), Error>)
    modifies out
    ensures var m := Message(kind, payload);
      && r == (if Encodable(m) then Ok(()) else Err(BoundExceeded(HEADER_LEN + |payload|)))
      && out.data == old(out.data) + (if Encodable(m) then Encoded(m) else [])
  {
    hide LittleEndian, Crc, WordBytes, Overwrite, Blank, KindByte, Magic, Padding;
    var total := HEADER_LEN + |payload|;
    if total > MAX_FRAME_LEN {
      return Err(BoundExceeded(total));
    }
    ghost var prefix := out.data;
    var start := |out.data|;
    out.Resize(start + HEADER_LEN);
    out.CopyFromSlice(start, Magic());
    out.CopyFromSlice(start + 4, LittleEndian(PROTOCOL_MAJOR, 2));
    out.CopyFromSlice(start + 6, LittleEndian(PROTOCOL_MINOR, 2));
    out.CopyFromSlice(start + 8, [KindByte(kind)]);
    out.CopyFromSlice(start + 9, LittleEndian(|payload|, 4));
    PatchedHeader(prefix, kind, |payload|);
    out.ExtendFromSlice(payload);
    ghost var body := Header(PROTOCOL_MINOR, kind, |payload|, Padding()) + payload;
    assert out.data == prefix + body;
    assert out.data[start..] == body;
    var crc := Compute(out.data[start..]);
    out.Resize(start + total + 4);
    FillBlank(prefix + body, WordBytes(crc), 4);
    NoBlank(prefix + body + WordBytes(crc));
    out.CopyFromSlice(start + total, WordBytes(crc));
    assert out.data == prefix + Sealed(body);
    return Ok(());
  }

  lemma FillBlank(prefix: seq<byte>, piece: seq<byte>, n: nat)
    requires |piece| <= n
    ensures Overwrite(prefix + Blank(n), |prefix|, piece) == prefix + piece + Blank(n - |piece|)
  {
  }

  lemma NoBlank(bytes: seq<byte>)
    ensures bytes + Blank(0) == bytes
  {
  }

  lemma PatchedHeader(prefix: seq<byte>, kind: MsgKind, length: nat)
    ensures var at, blank := |prefix|, prefix + Blank(HEADER_LEN);
      Overwrite(Overwrite(Overwrite(Overwrite(Overwrite(blank,
        at, Magic()), at + 4, LittleEndian(PROTOCOL_MAJOR, 2)), at + 6, LittleEndian(PROTOCOL_MINOR, 2)),
        at + 8, [KindByte(kind)]), at + 9, LittleEndian(length, 4))
      == prefix + Header(PROTOCOL_MINOR, kind, length, Padding())
  {
    hide LittleEndian, KindByte, Magic, Overwrite, Blank;
    var p1 := prefix + Magic();
    var p2 := p1 + LittleEndian(PROTOCOL_MAJOR, 2);
    var p3 := p2 + LittleEndian(PROTOCOL_MINOR, 2);
    var p4 := p3 + [KindByte(kind)];
    FillBlank(prefix, Magic(), HEADER_LEN);
    FillBlank(p1, LittleEndian(PROTOCOL_MAJOR, 2), 13);
    FillBlank(p2, LittleEndian(PROTOCOL_MINOR, 2), 11);
    FillBlank(p3, [KindByte(kind)], 9);
    FillBlank(p4, LittleEndian(length, 4), 8);
    BlankPadding();
    assert p4 + LittleEndian(length, 4) + Padding()
        == prefix + Header(PROTOCOL_MINOR, kind, length, Padding());
  }

  lemma BlankPadding()
    ensures Blank(4) == Padding()
  {
  }

  /** A byte stream; a failed read leaves what remains unspecified. */
  class ByteStream {
    var rest: seq<byte>

    constructor (bytes: seq<byte>)
      ensures rest == bytes
    {
      rest := bytes;
    }

    method ReadExact(n: nat) returns (r: Result<seq<byte>, Error>)
      modifies this
      ensures n <= |old(rest)| ==> r == Ok(old(rest)[..n]) && rest == old(rest)[n..]
      ensures n > |old(rest)| ==> r == Err(UnexpectedEof)
    {
      if n > |rest| {
        rest := [];
        return Err(UnexpectedEof);
      }
      r := Ok(rest[..n]);
      rest := rest[n..];
    }
  }

  /** `read_frame`: one frame off the stream. */
  method ReadFrame(stream: ByteStream) returns (r: Result<Frame, Error>)
    modifies stream
    ensures match Parse(old(stream.rest))
      case Ok(p) => r == Ok(p.frame) && stream.rest == p.rest
      case Err(e) => r == Err(e)
  {
    hide Crc, FromLittleEndian, BytesWord;
    ghost var s := stream.rest;
    var header := stream.ReadExact(HEADER_LEN);
    if header.Err? {
      return Err(header.error);
    }
    var h := header.value;
    if h[..4] != Magic() {
      return Err(BadMagic);
    }
    var major := FromLittleEndian(h[4..6]);
    if major != PROTOCOL_MAJOR {
      return Err(UnsupportedVersion(major));
    }
    var minor := FromLittleEndian(h[6..8]);
    var kind := KindFromByte(h[8]);
    if kind.None? {
      return Err(UnknownKind);
    }
    var length := FromLittleEndian(h[9..13]);
    if length > MAX_FRAME_LEN {
      return Err(BoundExceeded(length));
    }
    assert HeaderLength(s[..HEADER_LEN]) == Ok(length);
    var payload := stream.ReadExact(length);
    if payload.Err? {
      return Err(payload.error);
    }
    var stored := stream.ReadExact(4);
    if stored.Err? {
      return Err(stored.error);
    }
    ghost var end := HEADER_LEN + length + 4;
    assert h + payload.value == s[..end][..end - 4] && stored.value == s[..end][end - 4..];
    assert h[6..8] == s[6..8] && payload.value == s[HEADER_LEN..end - 4] && stream.rest == s[end..];
    var crc := Compute(h + payload.value);
    if crc != BytesWord(stored.value) {
      return Err(ChecksumMismatch);
    }
    return Ok(Frame(minor, kind.value, payload.value));
  }
}
