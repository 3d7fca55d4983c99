/** The checkpoint payload, version 2: what a graceful end writes and what the next campaign reads back. */
module Checkpoint {
  import opened Wrappers
  import opened Words
  import opened Bytes

  /** The first eight bytes of a content id. */
  type Short = s: seq<byte> | |s| == 8 witness seq(8, i => 0)
  type Digest = s: seq<byte> | |s| == 32 witness seq(32, i => 0)

  type NextIndex = map<Short, u64>

  const VERSION: byte := 2
  const HEADER_LEN: nat := 69
  const MAX_PARENTS: nat := 0x100_0000

  datatype LoadError = Truncated | TooManyParents

  datatype Counters = Counters(campaign: Digest, executions: u64, findings: u64, admissionSeq: u64, entries: u64)

  type Row = (Short, u64)

  // ---- The map as rows ----

  /** The map that inserting rows one after the other builds. */
  function FromRows(rows: seq<Row>, onto: NextIndex): NextIndex {
    if rows == [] then onto else FromRows(rows[1..], onto[rows[0].0 := rows[0].1])
  }

  /** `rows` iterates `m`: every key once, with its value. */
  ghost predicate Iterates(rows: seq<Row>, m: NextIndex) {
    && |rows| == |m|
    && (forall i | 0 <= i < |rows| :: rows[i].0 in m && m[rows[i].0] == rows[i].1)
    && (forall i, j | 0 <= i < j < |rows| :: rows[i].0 != rows[j].0)
    && (forall k | k in m :: exists i :: 0 <= i < |rows| && rows[i].0 == k)
  }

  lemma {:induction false} FromRowsKeeps(rows: seq<Row>, onto: NextIndex, k: Short)
    requires forall i, j | 0 <= i < j < |rows| :: rows[i].0 != rows[j].0
    ensures k in FromRows(rows, onto) <==> k in onto || exists i :: 0 <= i < |rows| && rows[i].0 == k
    ensures forall i | 0 <= i < |rows| && rows[i].0 == k :: FromRows(rows, onto)[k] == rows[i].1
    ensures (forall i | 0 <= i < |rows| :: rows[i].0 != k) && k in onto ==> FromRows(rows, onto)[k] == onto[k]
  {
    if rows != [] {
      var rest := rows[1..];
      FromRowsKeeps(rest, onto[rows[0].0 := rows[0].1], k);
      assert forall i | 0 <= i < |rest| :: rest[i] == rows[i + 1];
    }
  }

  lemma RowsMakeTheMap(rows: seq<Row>, m: NextIndex)
    requires Iterates(rows, m)
    ensures FromRows(rows, map[]) == m
  {
    forall k: Short ensures k in FromRows(rows, map[]) <==> k in m {
      FromRowsKeeps(rows, map[], k);
    }
    forall k: Short | k in m ensures FromRows(rows, map[])[k] == m[k] {
      FromRowsKeeps(rows, map[], k);
    }
  }

  // ---- Writing ----

  function EncodeRow(row: Row): (r: seq<byte>)
    ensures |r| == 16
  {
    row.0 + LittleEndian(row.1, 8)
  }

  function EncodeRows(rows: seq<Row>): (r: seq<byte>)
    ensures |r| == 16 * |rows|
  {
    if rows == [] then [] else EncodeRow(rows[0]) + EncodeRows(rows[1..])
  }

  function Header(c: Counters, count: nat): (r: seq<byte>)
    ensures |r| == HEADER_LEN
  {
    [VERSION] + c.campaign + LittleEndian(c.executions, 8) + LittleEndian(c.findings, 8)
    + LittleEndian(c.admissionSeq, 8) + LittleEndian(c.entries, 8) + LittleEndian(count % 0x1_0000_0000, 4)
  }

  /** `encode_checkpoint`; the row count is cut to 32 bits. */
  method EncodeCheckpoint(c: Counters, rows: seq<Row>) returns (payload: seq<byte>)
    ensures payload == Header(c, |rows|) + EncodeRows(rows)
  {
    hide EncodeRow, EncodeRows, Header;
    payload := EncodeHeader(c, |rows|);
    NoRows();
    for i := 0 to |rows|
      invariant payload == Header(c, |rows|) + EncodeRows(rows[..i])
    {
      EncodeRowsAppends(rows[..i], rows[i]);
      assert rows[..i + 1] == rows[..i] + [rows[i]];
      Associate(Header(c, |rows|), EncodeRows(rows[..i]), EncodeRow(rows[i]));
      payload := payload + EncodeRow(rows[i]);
    }
    assert rows[..|rows|] == rows;
  }

  method EncodeHeader(c: Counters, count: nat) returns (payload: seq<byte>)
    ensures payload == Header(c, count)
  {
    hide LittleEndian;
    payload := [VERSION];
    payload := payload + c.campaign;
    payload := payload + LittleEndian(c.executions, 8);
    payload := payload + LittleEndian(c.findings, 8);
    payload := payload + LittleEndian(c.admissionSeq, 8);
    payload := payload + LittleEndian(c.entries, 8);
    payload := payload + LittleEndian(count % 0x1_0000_0000, 4);
  }

  lemma Associate(a: seq<byte>, b: seq<byte>, c: seq<byte>)
    ensures (a + b) + c == a + (b + c)
  {
  }

  lemma NoRows()
    ensures EncodeRows([]) == []
  {
  }

  lemma {:induction false} EncodeRowsAppends(rows: seq<Row>, row: Row)
    ensures EncodeRows(rows + [row]) == EncodeRows(rows) + EncodeRow(row)
  {
    hide EncodeRow;
    if rows == [] {
      assert [row][1..] == [];
    } else {
      EncodeRowsAppends(rows[1..], row);
      assert (rows + [row])[1..] == rows[1..] + [row];
    }
  }

  // ---- Reading ----

  /** Reads `count` rows, each overwriting an earlier one with the same key. */
  function ParseRows(bytes: seq<byte>, count: nat, onto: NextIndex): Result<NextIndex, LoadError>
    decreases count
  {
    if count == 0 then Ok(onto)
    else if |bytes| < 16 then Err(Truncated)
    else
      EightBytes(bytes[8..16]);
      ParseRows(bytes[16..], count - 1, onto[bytes[..8] := FromLittleEndian(bytes[8..16])])
  }

  lemma EightBytes(bytes: seq<byte>)
    requires |bytes| == 8
    ensures FromLittleEndian(bytes) < TWO_64
  {
    EncodeDecode(bytes);
    BoundOf8();
  }

  lemma BoundOf8()
    ensures Bound(8) == TWO_64 && Bound(4) == 0x1_0000_0000
  {
    assert Bound(4) == 0x1_0000_0000;
    assert Bound(8) == 256 * (256 * (256 * (256 * Bound(4))));
  }

  /** What the loader makes of a payload: another version counts as no checkpoint, trailing bytes are ignored. */
  function Parse(payload: seq<byte>): Result<NextIndex, LoadError> {
    if payload == [] || payload[0] != VERSION then Ok(map[])
    else if |payload| < HEADER_LEN then Err(Truncated)
    else
      var count := FromLittleEndian(payload[65..69]);
      if count > MAX_PARENTS then Err(TooManyParents) else ParseRows(payload[69..], count, map[])
  }

  /** `load_checkpoint_next_index`; no stored checkpoint is an empty map. */
  method LoadNextIndex(stored: Option<seq<byte>>) returns (r: Result<NextIndex, LoadError>)
    ensures r == if stored.None? then Ok(map[]) else Parse(stored.value)
  {
    hide FromLittleEndian, ParseRows;
    if stored.None? {
      return Ok(map[]);
    }
    var payload := stored.value;
    if |payload| == 0 || payload[0] != VERSION {
      return Ok(map[]);
    }
    if |payload| < HEADER_LEN {
      return Err(Truncated);
    }
    var count := FromLittleEndian(payload[65..69]);
    if count > MAX_PARENTS {
      return Err(TooManyParents);
    }
    var next: NextIndex := map[];
    var pos := HEADER_LEN;
    assert payload[69..] == payload[pos..];
    for i := 0 to count
      invariant HEADER_LEN <= pos <= |payload|
      invariant Parse(payload) == ParseRows(payload[pos..], count - i, next)
    {
      RowAt(payload, pos, count - i, next);
      if pos + 16 > |payload| {
        return Err(Truncated);
      }
      var short := payload[pos..pos + 8];
      var value := FromLittleEndian(payload[pos + 8..pos + 16]);
      next := next[short := value];
      pos := pos + 16;
    }
    NoRowsLeft(payload[pos..], next);
    return Ok(next);
  }

  lemma RowAt(payload: seq<byte>, pos: nat, count: nat, onto: NextIndex)
    requires pos <= |payload| && count > 0
    ensures pos + 16 > |payload| ==> ParseRows(payload[pos..], count, onto) == Err(Truncated)
    ensures pos + 16 <= |payload| ==>
      var value := FromLittleEndian(payload[pos + 8..pos + 16]);
      && value < TWO_64
      && ParseRows(payload[pos..], count, onto)
           == ParseRows(payload[pos + 16..], count - 1, onto[payload[pos..pos + 8] := value])
  {
    hide FromLittleEndian;
    if pos + 16 <= |payload| {
      EightBytes(payload[pos + 8..pos + 16]);
      assert payload[pos..][..8] == payload[pos..pos + 8];
      assert payload[pos..][8..16] == payload[pos + 8..pos + 16];
      assert payload[pos..][16..] == payload[pos + 16..];
    }
  }

  lemma NoRowsLeft(bytes: seq<byte>, onto: NextIndex)
    ensures ParseRows(bytes, 0, onto) == Ok(onto)
  {
  }

  // ---- What the loader makes of any payload ----

  /** The row that starts at byte 16 * i. */
  function RowFrom(bytes: seq<byte>, i: nat): Row
    requires 16 * i + 16 <= |bytes|
  {
    EightBytes(bytes[16 * i + 8..16 * i + 16]);
    (bytes[16 * i..16 * i + 8], FromLittleEndian(bytes[16 * i + 8..16 * i + 16]))
  }

  function RowsIn(bytes: seq<byte>, count: nat): (rows: seq<Row>)
    requires 16 * count <= |bytes|
    ensures |rows| == count && forall i | 0 <= i < count :: rows[i] == RowFrom(bytes, i)
  {
    seq(count, (i: nat) requires i < count => RowFrom(bytes, i))
  }

  predicate Keyed(rows: seq<Row>, k: Short) {
    exists i :: 0 <= i < |rows| && rows[i].0 == k
  }

  /** `m` is what the rows say: it has exactly their keys, and the last row of a key says its value. */
  ghost predicate LastRowWins(m: NextIndex, rows: seq<Row>) {
    && (forall k: Short :: k in m <==> Keyed(rows, k))
    && forall i | 0 <= i < |rows| && (forall j | i < j < |rows| :: rows[j].0 != rows[i].0) ::
         rows[i].0 in m && m[rows[i].0] == rows[i].1
  }

  lemma {:induction false} FromRowsAppends(rows: seq<Row>, row: Row, onto: NextIndex)
    ensures FromRows(rows + [row], onto) == FromRows(rows, onto)[row.0 := row.1]
  {
    if rows == [] {
      assert [row][1..] == [];
    } else {
      assert (rows + [row])[1..] == rows[1..] + [row];
      FromRowsAppends(rows[1..], row, onto[rows[0].0 := rows[0].1]);
    }
  }

  lemma {:induction false} FromRowsMeans(rows: seq<Row>)
    ensures LastRowWins(FromRows(rows, map[]), rows)
  {
    if rows != [] {
      var n := |rows| - 1;
      FromRowsMeans(rows[..n]);
      FromRowsAppends(rows[..n], rows[n], map[]);
      assert rows == rows[..n] + [rows[n]];
      OneMoreRow(FromRows(rows[..n], map[]), rows[..n], rows[n]);
    }
  }

  lemma OneMoreRow(m: NextIndex, rows: seq<Row>, row: Row)
    requires LastRowWins(m, rows)
    ensures LastRowWins(m[row.0 := row.1], rows + [row])
  {
    var more := rows + [row];
    assert more[|rows|] == row;
    forall k: Short ensures Keyed(more, k) <==> k == row.0 || Keyed(rows, k) {
      if Keyed(rows, k) {
        var i :| 0 <= i < |rows| && rows[i].0 == k;
        assert more[i].0 == k;
      }
    }
    forall i | 0 <= i < |rows| && (forall j | i < j < |more| :: more[j].0 != more[i].0)
      ensures rows[i].0 in m && m[rows[i].0] == rows[i].1 && rows[i].0 != row.0
    {
      assert forall j | i < j < |rows| :: rows[j].0 != rows[i].0 by {
        assert forall j | i < j < |rows| :: more[j] == rows[j];
      }
    }
  }

  lemma {:induction false} ParseRowsReads(bytes: seq<byte>, count: nat, onto: NextIndex)
    ensures ParseRows(bytes, count, onto) ==
      if 16 * count <= |bytes| then Ok(FromRows(RowsIn(bytes, count), onto)) else Err(Truncated)
    decreases count
  {
    hide FromLittleEndian, RowsIn, RowFrom;
    if count > 0 && |bytes| >= 16 {
      EightBytes(bytes[8..16]);
      var key, value := bytes[..8], FromLittleEndian(bytes[8..16]);
      ParseRowsReads(bytes[16..], count - 1, onto[key := value]);
      if 16 * count <= |bytes| {
        RowsInStep(bytes, count);
      }
    }
  }

  lemma RowsInStep(bytes: seq<byte>, count: nat)
    requires count > 0 && 16 * count <= |bytes|
    ensures RowsIn(bytes, count)[0] == (bytes[..8], FromLittleEndian(bytes[8..16]))
    ensures RowsIn(bytes, count)[1..] == RowsIn(bytes[16..], count - 1)
  {
    hide RowsIn, FromLittleEndian;
    forall i | 0 <= i < count - 1 ensures RowFrom(bytes, i + 1) == RowFrom(bytes[16..], i) {
      SliceBehind(bytes, 16 * i, 16 * i + 8);
      SliceBehind(bytes, 16 * i + 8, 16 * i + 16);
    }
  }

  lemma SliceBehind(bytes: seq<byte>, from: nat, until: nat)
    requires from <= until && until + 16 <= |bytes|
    ensures bytes[16..][from..until] == bytes[16 + from..16 + until]
  {
  }

  /** Main result for the loader: what every payload, well formed or not, is read as. Only version 2 is looked into;
      its row count stands at bytes 65 to 68, and its rows follow; what is too short is refused, and so is a count over
      the bound. */
  lemma LoaderOutcome(payload: seq<byte>)
    ensures payload == [] || payload[0] != 2 ==> Parse(payload) == Ok(map[])
    ensures 0 < |payload| < 69 && payload[0] == 2 ==> Parse(payload) == Err(Truncated)
    ensures |payload| >= 69 && payload[0] == 2 ==>
      var count, rows := FromLittleEndian(payload[65..69]), payload[69..];
      if count > 0x100_0000 then Parse(payload) == Err(TooManyParents)
      else if |rows| < 16 * count then Parse(payload) == Err(Truncated)
      else Parse(payload).Ok? && LastRowWins(Parse(payload).value, RowsIn(rows, count))
  {
    hide FromLittleEndian, ParseRows, LastRowWins, RowsIn, FromRows;
    if |payload| >= 69 {
      var count := FromLittleEndian(payload[65..69]);
      ParseRowsReads(payload[69..], count, map[]);
      if |payload[69..]| >= 16 * count {
        FromRowsMeans(RowsIn(payload[69..], count));
      }
    }
  }

  /** The first 69 bytes: version, campaign, the four counters and the row count. */
  ghost predicate HeaderSays(p: seq<byte>, c: Counters, count: nat) {
    && |p| >= 69 && p[0] == 2 && p[1..33] == c.campaign
    && FromLittleEndian(p[33..41]) == c.executions && FromLittleEndian(p[41..49]) == c.findings
    && FromLittleEndian(p[49..57]) == c.admissionSeq && FromLittleEndian(p[57..65]) == c.entries
    && FromLittleEndian(p[65..69]) == count % 0x1_0000_0000
  }

  /** Where a checkpoint keeps what: the header, and behind it the rows. */
  lemma CheckpointLayout(c: Counters, rows: seq<Row>)
    ensures var p := Header(c, |rows|) + EncodeRows(rows);
      |p| == 69 + 16 * |rows| && HeaderSays(p, c, |rows|) && RowsIn(p[69..], |rows|) == rows
  {
    hide Header, EncodeRows, RowsIn, HeaderSays;
    HeaderLayout(c, |rows|);
    Longer(Header(c, |rows|), EncodeRows(rows), c, |rows|);
    RowLayout(rows);
  }

  lemma Longer(head: seq<byte>, body: seq<byte>, c: Counters, count: nat)
    requires |head| == 69 && HeaderSays(head, c, count)
    ensures HeaderSays(head + body, c, count) && (head + body)[69..] == body
  {
    hide FromLittleEndian;
    var p := head + body;
    assert p[1..33] == head[1..33] && p[33..41] == head[33..41] && p[41..49] == head[41..49];
    assert p[49..57] == head[49..57] && p[57..65] == head[57..65] && p[65..69] == head[65..69];
  }

  lemma HeaderLayout(c: Counters, count: nat)
    ensures HeaderSays(Header(c, count), c, count)
  {
    hide LittleEndian, FromLittleEndian, HeaderSays;
    BoundOf8();
    DecodeEncode(c.executions, 8);
    DecodeEncode(c.findings, 8);
    DecodeEncode(c.admissionSeq, 8);
    DecodeEncode(c.entries, 8);
    DecodeEncode(count % 0x1_0000_0000, 4);
    Concatenated(c, count, Header(c, count), LittleEndian(c.executions, 8), LittleEndian(c.findings, 8),
                 LittleEndian(c.admissionSeq, 8), LittleEndian(c.entries, 8), LittleEndian(count % 0x1_0000_0000, 4));
  }

  lemma Concatenated(c: Counters, count: nat, p: seq<byte>, e: seq<byte>, f: seq<byte>, a: seq<byte>, n: seq<byte>, k: seq<byte>)
    requires |e| == 8 && |f| == 8 && |a| == 8 && |n| == 8 && |k| == 4
    requires p == [VERSION] + c.campaign + e + f + a + n + k
    requires FromLittleEndian(e) == c.executions && FromLittleEndian(f) == c.findings
    requires FromLittleEndian(a) == c.admissionSeq && FromLittleEndian(n) == c.entries
    requires FromLittleEndian(k) == count % 0x1_0000_0000
    ensures HeaderSays(p, c, count)
  {
    hide FromLittleEndian, HeaderSays;
    var front := [VERSION] + c.campaign + e + f;
    Associate(front, a, n);
    Associate(front, a + n, k);
    FrontFields(c.campaign, e, f, front);
    BackFields(a, n, k, a + n + k);
    Halves(front, a + n + k, p);
    FieldsSay(p, c, count);
  }

  lemma FrontFields(campaign: Digest, e: seq<byte>, f: seq<byte>, front: seq<byte>)
    requires |e| == 8 && |f| == 8 && front == [VERSION] + campaign + e + f
    ensures |front| == 49 && front[0] == 2 && front[1..33] == campaign && front[33..41] == e && front[41..49] == f
  {
  }

  lemma BackFields(a: seq<byte>, n: seq<byte>, k: seq<byte>, back: seq<byte>)
    requires |a| == 8 && |n| == 8 && |k| == 4 && back == a + n + k
    ensures |back| == 20 && back[0..8] == a && back[8..16] == n && back[16..20] == k
  {
  }

  lemma Halves(front: seq<byte>, back: seq<byte>, p: seq<byte>)
    requires |front| == 49 && |back| == 20 && p == front + back
    ensures |p| == 69 && p[0] == front[0] && p[1..33] == front[1..33]
    ensures p[33..41] == front[33..41] && p[41..49] == front[41..49]
    ensures p[49..57] == back[0..8] && p[57..65] == back[8..16] && p[65..69] == back[16..20]
  {
  }

  lemma FieldsSay(p: seq<byte>, c: Counters, count: nat)
    requires |p| >= 69 && p[0] == 2 && p[1..33] == c.campaign
    requires FromLittleEndian(p[33..41]) == c.executions && FromLittleEndian(p[41..49]) == c.findings
    requires FromLittleEndian(p[49..57]) == c.admissionSeq && FromLittleEndian(p[57..65]) == c.entries
    requires FromLittleEndian(p[65..69]) == count % 0x1_0000_0000
    ensures HeaderSays(p, c, count)
  {
  }

  lemma {:induction false} RowLayout(rows: seq<Row>)
    ensures RowsIn(EncodeRows(rows), |rows|) == rows
  {
    hide LittleEndian, FromLittleEndian, EncodeRow, RowsIn, RowFrom;
    if rows != [] {
      var bytes, rest := EncodeRows(rows), EncodeRows(rows[1..]);
      RowHead(rows[0], rest);
      BoundOf8();
      DecodeEncode(rows[0].1, 8);
      RowLayout(rows[1..]);
      assert bytes[16..] == rest;
      RowsInStep(bytes, |rows|);
      assert RowsIn(bytes, |rows|) == [rows[0]] + rows[1..];
    }
  }

  // ---- Round trip ----

  lemma RowHead(row: Row, rest: seq<byte>)
    ensures var bytes := EncodeRow(row) + rest;
      |bytes| >= 16 && bytes[..8] == row.0 && bytes[8..16] == LittleEndian(row.1, 8) && bytes[16..] == rest
  {
    hide LittleEndian;
  }

  lemma ParseRow(row: Row, rest: seq<byte>, count: nat, onto: NextIndex)
    requires count > 0
    ensures ParseRows(EncodeRow(row) + rest, count, onto) == ParseRows(rest, count - 1, onto[row.0 := row.1])
  {
    hide LittleEndian, FromLittleEndian, EncodeRow;
    RowHead(row, rest);
    BoundOf8();
    DecodeEncode(row.1, 8);
  }

  lemma {:induction false} ParseEncodedRows(rows: seq<Row>, count: nat, onto: NextIndex)
    requires count <= |rows|
    ensures ParseRows(EncodeRows(rows), count, onto) == Ok(FromRows(rows[..count], onto))
    decreases count
  {
    hide EncodeRow, LittleEndian, FromLittleEndian;
    if count > 0 {
      var row, rest := rows[0], rows[1..];
      ParseEncodedRows(rest, count - 1, onto[row.0 := row.1]);
      hide ParseRows;
      ParseRow(row, EncodeRows(rest), count, onto);
      assert rows[..count][0] == row && rows[..count][1..] == rest[..count - 1];
    } else {
      assert rows[..count] == [];
    }
  }

  lemma ParseHeader(c: Counters, count: nat, body: seq<byte>)
    ensures Parse(Header(c, count) + body) ==
      if count % 0x1_0000_0000 > MAX_PARENTS then Err(TooManyParents)
      else ParseRows(body, count % 0x1_0000_0000, map[])
  {
    hide LittleEndian, FromLittleEndian, ParseRows;
    var payload := Header(c, count) + body;
    assert payload[65..69] == LittleEndian(count % 0x1_0000_0000, 4);
    assert payload[69..] == body;
    BoundOf8();
    DecodeEncode(count % 0x1_0000_0000, 4);
  }

  /** What is written is read back exactly when the map has at most 2^24 parents: beyond that the loader refuses it,
      or, once the 32-bit count has wrapped, reads only some of the rows. */
  lemma CheckpointRoundTrip(c: Counters, rows: seq<Row>, m: NextIndex)
    requires Iterates(rows, m)
    ensures Parse(Header(c, |rows|) + EncodeRows(rows)) == Ok(m) <==> |m| <= MAX_PARENTS
  {
    hide Header, Parse, ParseRows, EncodeRows, FromRows, Iterates;
    var count := |rows| % 0x1_0000_0000;
    assert |rows| == |m| by { RowCount(rows, m); }
    ParseHeader(c, |rows|, EncodeRows(rows));
    if count <= MAX_PARENTS {
      ParseEncodedRows(rows, count, map[]);
      if count == |rows| {
        assert rows[..count] == rows;
        RowsMakeTheMap(rows, m);
      } else {
        FewerRows(rows[..count], map[]);
      }
    }
  }

  lemma RowCount(rows: seq<Row>, m: NextIndex)
    requires Iterates(rows, m)
    ensures |rows| == |m|
  {
  }

  lemma {:induction false} FewerRows(rows: seq<Row>, onto: NextIndex)
    ensures |FromRows(rows, onto)| <= |onto| + |rows|
  {
    if rows != [] {
      FewerRows(rows[1..], onto[rows[0].0 := rows[0].1]);
      var more := onto[rows[0].0 := rows[0].1];
      assert more.Keys == onto.Keys + {rows[0].0};
      assert |more| == |more.Keys| && |onto| == |onto.Keys|;
    }
  }
}
