/**
 Mutation-index ranges. Every order for a parent key takes the next range of the key's index space;
 the map of next indices is written at a graceful end and read back by the next campaign.
 */
module Reservations {
  import opened Wrappers
  import opened Words
  import opened Checkpoint

  const MAX_DISCOVERIES_PER_RESULT: u64 := 4096

  /** The mutations start .. start + count of one order, for one parent key. */
  datatype Range = Range(key: Short, start: u64, count: u64)

  function NextOf(next: NextIndex, key: Short): u64 {
    if key in next then next[key] else 0
  }

  function Min(a: u64, b: u64): u64 {
    if a < b then a else b
  }

  function WrappingAdd(a: u64, b: u64): u64 {
    (a + b) % 0x1_0000_0000_0000_0000
  }

  /** The range an order of `batch` mutations gets. */
  function RangeOf(next: NextIndex, key: Short, batch: u64): Range {
    Range(key, NextOf(next, key), Min(batch, MAX_DISCOVERIES_PER_RESULT))
  }

  function Reserved(next: NextIndex, r: Range): NextIndex {
    next[r.key := WrappingAdd(r.start, r.count)]
  }

  class IndexSpaces {
    var nextIndex: NextIndex

    constructor (loaded: NextIndex)
      ensures nextIndex == loaded
    {
      nextIndex := loaded;
    }

    /** The index part of dispatching one order. */
    method Reserve(key: Short, batch: u64) returns (r: Range)
      modifies this
      ensures r == RangeOf(old(nextIndex), key, batch) && nextIndex == Reserved(old(nextIndex), r)
      ensures r.key == key && r.start == (if key in old(nextIndex) then old(nextIndex)[key] else 0)
      ensures r.count <= batch && r.count <= 4096 && (r.count == batch || r.count == 4096)
      ensures nextIndex == old(nextIndex)[key := (r.start + r.count) % 0x1_0000_0000_0000_0000]
    {
      if key !in nextIndex {
        nextIndex := nextIndex[key := 0];
      }
      var start := nextIndex[key];
      var count := Min(batch, MAX_DISCOVERIES_PER_RESULT);
      nextIndex := nextIndex[key := WrappingAdd(NextOf(nextIndex, key), count)];
      assert nextIndex == Reserved(old(nextIndex), Range(key, start, count));
      return Range(key, start, count);
    }
  }

  // ---- Runs ----

  /** One order; a campaign that ends gracefully and is resumed; one that dies before its checkpoint and is resumed. */
  datatype Event = Order(key: Short, batch: u64) | Resume | Crash

  datatype State = State(next: NextIndex, saved: NextIndex, ranges: seq<Range>)

  const START: State := State(map[], map[], [])

  /** What the next campaign loads: the checkpoint read back, if it can be. */
  function After(events: seq<Event>): Option<State> {
    if events == [] then Some(START)
    else
      match After(events[..|events| - 1])
      case None => None
      case Some(s) => Apply(s, events[|events| - 1])
  }

  /** A resume that cannot read its checkpoint ends the run. */
  function Apply(s: State, e: Event): Option<State> {
    match e
    case Order(key, batch) =>
      var r := RangeOf(s.next, key, batch);
      Some(State(Reserved(s.next, r), s.saved, s.ranges + [r]))
    case Resume => if |s.next| <= MAX_PARENTS then Some(State(s.next, s.next, s.ranges)) else None
    case Crash => Some(State(s.saved, s.saved, s.ranges))
  }

  /** `Resume` is what writing the checkpoint and loading it amounts to. */
  lemma ResumeIsRoundTrip(s: State, c: Counters, rows: seq<Row>)
    requires Iterates(rows, s.next)
    ensures Apply(s, Resume).Some? <==> Parse(Header(c, |rows|) + EncodeRows(rows)) == Ok(s.next)
    ensures Apply(s, Resume).Some? ==> Parse(Header(c, |rows|) + EncodeRows(rows)) == Ok(Apply(s, Resume).value.next)
  {
    hide Header, EncodeRows, Parse, Iterates;
    CheckpointRoundTrip(c, rows, s.next);
  }

  // ---- Consecutive ranges ----

  /** How many mutations the ranges hold for a key. */
  function Total(ranges: seq<Range>, key: Short): nat {
    if ranges == [] then 0
    else
      var last := ranges[|ranges| - 1];
      Total(ranges[..|ranges| - 1], key) + if last.key == key then last.count else 0
  }

  function Low64(n: nat): u64 {
    n % 0x1_0000_0000_0000_0000
  }

  lemma Low64Adds(n: nat, count: u64)
    ensures WrappingAdd(Low64(n), count) == Low64(n + count)
  {
  }

  lemma OneMoreRange(ranges: seq<Range>, r: Range, key: Short)
    ensures Total(ranges + [r], key) == Total(ranges, key) + if r.key == key then r.count else 0
    ensures HighWater(ranges + [r], key) == Max(HighWater(ranges, key), if r.key == key then r.start + r.count else 0)
  {
    assert (ranges + [r])[..|ranges|] == ranges;
  }

  /** Every crash finds the key where the last checkpoint left it. */
  predicate CrashesLoseNothing(events: seq<Event>, key: Short)
    requires After(events).Some?
  {
    if events == [] then true
    else
      var before, last := events[..|events| - 1], events[|events| - 1];
      var s := After(before).value;
      CrashesLoseNothing(before, key) && (last.Crash? ==> NextOf(s.saved, key) == NextOf(s.next, key))
  }

  /** Each range of the key starts where the earlier ranges of the key end, modulo 2^64. */
  ghost predicate Consecutive(s: State, key: Short) {
    && NextOf(s.next, key) == Low64(Total(s.ranges, key))
    && forall i | 0 <= i < |s.ranges| && s.ranges[i].key == key :: s.ranges[i].start == Low64(Total(s.ranges[..i], key))
  }

  /** Unless a crash loses reservations of the key, its ranges are consecutive modulo 2^64, across any number of
      resumes. */
  lemma {:induction false} RangesAreConsecutive(events: seq<Event>, key: Short)
    requires After(events).Some? && CrashesLoseNothing(events, key)
    ensures Consecutive(After(events).value, key)
  {
    if events != [] {
      var n := |events| - 1;
      var s := After(events[..n]).value;
      RangesAreConsecutive(events[..n], key);
      if events[n].Order? {
        OrderAppends(s, events[n].key, events[n].batch, key);
      }
    }
  }

  lemma OrderAppends(s: State, k: Short, batch: u64, key: Short)
    requires Consecutive(s, key)
    ensures Consecutive(Apply(s, Order(k, batch)).value, key)
  {
    hide Total, Low64, WrappingAdd, Min, HighWater;
    var r, t := RangeOf(s.next, k, batch), Apply(s, Order(k, batch)).value;
    OneMoreRange(s.ranges, r, key);
    Low64Adds(Total(s.ranges, key), r.count);
    forall i | 0 <= i < |t.ranges| && t.ranges[i].key == key
      ensures t.ranges[i].start == Low64(Total(t.ranges[..i], key))
    {
      if i < |s.ranges| {
        assert t.ranges[..i] == s.ranges[..i];
      } else {
        assert t.ranges[..i] == s.ranges;
      }
    }
  }

  // ---- Ranges that share an index ----

  predicate InRange(r: Range, x: nat) {
    r.start <= x < r.start + r.count
  }

  function Max(a: nat, b: nat): nat {
    if a < b then b else a
  }

  /** The largest end of a range handed out for the key. */
  function HighWater(ranges: seq<Range>, key: Short): nat {
    if ranges == [] then 0
    else
      var last := ranges[|ranges| - 1];
      Max(HighWater(ranges[..|ranges| - 1], key), if last.key == key then last.start + last.count else 0)
  }

  /** Some range of the key holds the index. */
  ghost predicate HandedOut(ranges: seq<Range>, key: Short, x: nat) {
    exists i | 0 <= i < |ranges| :: ranges[i].key == key && InRange(ranges[i], x)
  }

  lemma {:induction false} HandedOutIsBelow(ranges: seq<Range>, key: Short, i: nat)
    requires i < |ranges| && ranges[i].key == key
    ensures ranges[i].start + ranges[i].count <= HighWater(ranges, key)
  {
    var n := |ranges| - 1;
    if i < n {
      HandedOutIsBelow(ranges[..n], key, i);
    }
  }

  /** Every index below the largest end has been handed out, and neither the next index nor the one a crash falls
      back to lies beyond it. */
  ghost predicate Covered(s: State, key: Short) {
    && NextOf(s.next, key) <= HighWater(s.ranges, key)
    && NextOf(s.saved, key) <= HighWater(s.ranges, key)
    && forall x | 0 <= x < HighWater(s.ranges, key) :: HandedOut(s.ranges, key, x)
  }

  lemma {:induction false} RunCovers(events: seq<Event>, key: Short)
    requires After(events).Some? && HighWater(After(events).value.ranges, key) < TWO_64
    ensures Covered(After(events).value, key)
  {
    hide Covered, HighWater, HandedOut;
    if events == [] {
      StartIsCovered(key);
    } else {
      var n := |events| - 1;
      StepIsCovered(After(events[..n]).value, events[n], key);
      RunCovers(events[..n], key);
    }
  }

  lemma StartIsCovered(key: Short)
    ensures Covered(START, key)
  {
  }

  lemma StepIsCovered(s: State, e: Event, key: Short)
    requires Apply(s, e).Some? && HighWater(Apply(s, e).value.ranges, key) < TWO_64
    ensures HighWater(s.ranges, key) <= HighWater(Apply(s, e).value.ranges, key)
    ensures Covered(s, key) ==> Covered(Apply(s, e).value, key)
  {
    hide HighWater, HandedOut, Min;
    if e.Order? {
      var r, t := RangeOf(s.next, e.key, e.batch), Apply(s, e).value;
      OneMoreRange(s.ranges, r, key);
      HandedOutGrows(s.ranges, r, key);
      assert r.key == key ==> NextOf(t.next, key) == r.start + r.count;
    }
  }

  lemma HandedOutGrows(ranges: seq<Range>, r: Range, key: Short)
    ensures forall x :: HandedOut(ranges + [r], key, x) <==>
      HandedOut(ranges, key, x) || (r.key == key && InRange(r, x))
  {
    hide InRange;
    forall x ensures HandedOut(ranges + [r], key, x) <==> HandedOut(ranges, key, x) || (r.key == key && InRange(r, x)) {
      if HandedOut(ranges, key, x) {
        var i :| 0 <= i < |ranges| && ranges[i].key == key && InRange(ranges[i], x);
        assert (ranges + [r])[i] == ranges[i];
      }
      assert (ranges + [r])[|ranges|] == r;
    }
  }

  /** Exactly when an order reuses an index, over runs with any crashes, below 2^64: when the next index has fallen
      behind the largest end handed out for the key. */
  lemma OrderReusesExactly(events: seq<Event>, key: Short, batch: u64)
    requires After(events).Some? && HighWater(After(events).value.ranges, key) < TWO_64 && batch > 0
    ensures var s := After(events).value;
      (exists x :: InRange(RangeOf(s.next, key, batch), x) && HandedOut(s.ranges, key, x))
        <==> NextOf(s.next, key) < HighWater(s.ranges, key)
  {
    var s := After(events).value;
    var r := RangeOf(s.next, key, batch);
    RunCovers(events, key);
    assert InRange(r, r.start);
    hide HighWater, RangeOf, After, Min;
    forall x | InRange(r, x) && HandedOut(s.ranges, key, x) ensures r.start < HighWater(s.ranges, key) {
      var i :| 0 <= i < |s.ranges| && s.ranges[i].key == key && InRange(s.ranges[i], x);
      HandedOutIsBelow(s.ranges, key, i);
    }
  }

  /** No two ranges of the key share an index. */
  ghost predicate DisjointFor(ranges: seq<Range>, key: Short) {
    forall i, j, x | 0 <= i < j < |ranges| && ranges[i].key == key && ranges[j].key == key ::
      !(InRange(ranges[i], x) && InRange(ranges[j], x))
  }

  lemma DisjointExtends(ranges: seq<Range>, r: Range, key: Short)
    ensures DisjointFor(ranges + [r], key) <==>
      DisjointFor(ranges, key) && (r.key == key ==> forall x | InRange(r, x) :: !HandedOut(ranges, key, x))
  {
    hide InRange;
    var more := ranges + [r];
    if DisjointFor(more, key) {
      forall i, j, x | 0 <= i < j < |ranges| && ranges[i].key == key && ranges[j].key == key
        ensures !(InRange(ranges[i], x) && InRange(ranges[j], x))
      {
        assert more[i] == ranges[i] && more[j] == ranges[j];
      }
      forall i, x | 0 <= i < |ranges| && ranges[i].key == key && r.key == key
        ensures !(InRange(ranges[i], x) && InRange(r, x))
      {
        assert more[i] == ranges[i] && more[|ranges|] == r;
      }
    }
  }

  /** Every order that took indices of the key found its next index at the largest end so far. */
  predicate NeverBehind(events: seq<Event>, key: Short)
    requires After(events).Some?
  {
    if events == [] then true
    else
      var before, last := events[..|events| - 1], events[|events| - 1];
      var s := After(before).value;
      && NeverBehind(before, key)
      && (last.Order? && last.key == key && last.batch > 0 ==> NextOf(s.next, key) == HighWater(s.ranges, key))
  }

  /** Main result: below 2^64, over runs with any resumes and crashes, the ranges of a key are disjoint if and only
      if no order of the key was ever behind. */
  lemma {:induction false} RangesAreDisjointExactly(events: seq<Event>, key: Short)
    requires After(events).Some? && HighWater(After(events).value.ranges, key) < TWO_64
    ensures DisjointFor(After(events).value.ranges, key) <==> NeverBehind(events, key)
  {
    hide HighWater, DisjointFor, HandedOut, InRange, Covered, Min;
    if events == [] {
      NoRanges(key);
    } else {
      var n := |events| - 1;
      var s, e := After(events[..n]).value, events[n];
      StepIsCovered(s, e, key);
      RangesAreDisjointExactly(events[..n], key);
      if e.Order? {
        var r := RangeOf(s.next, e.key, e.batch);
        DisjointExtends(s.ranges, r, key);
        NextIsNotBeyond(events[..n], key);
        if e.key == key {
          if e.batch > 0 {
            OrderReusesExactly(events[..n], key, e.batch);
          } else {
            EmptyRange(s.next, key);
          }
        }
      }
    }
  }

  lemma NoRanges(key: Short)
    ensures DisjointFor([], key)
  {
  }

  lemma EmptyRange(next: NextIndex, key: Short)
    ensures forall x :: !InRange(RangeOf(next, key, 0), x)
  {
  }

  lemma NextIsNotBeyond(events: seq<Event>, key: Short)
    requires After(events).Some? && HighWater(After(events).value.ranges, key) < TWO_64
    ensures NextOf(After(events).value.next, key) <= HighWater(After(events).value.ranges, key)
  {
    RunCovers(events, key);
  }

  /** Each range of the key ends before the later ones of the key begin. */
  ghost predicate Ascending(ranges: seq<Range>, key: Short) {
    forall i, j | 0 <= i < j < |ranges| && ranges[i].key == ranges[j].key == key ::
      ranges[i].start + ranges[i].count <= ranges[j].start
  }

  lemma AscendingExtends(ranges: seq<Range>, r: Range, key: Short)
    requires Ascending(ranges, key) && (r.key == key ==> r.start == HighWater(ranges, key))
    ensures Ascending(ranges + [r], key)
  {
    hide HighWater;
    forall i | 0 <= i < |ranges| && ranges[i].key == key
      ensures ranges[i].start + ranges[i].count <= HighWater(ranges, key)
    {
      HandedOutIsBelow(ranges, key, i);
    }
  }

  lemma LosslessStep(s: State, e: Event, key: Short)
    requires Apply(s, e).Some? && HighWater(Apply(s, e).value.ranges, key) < TWO_64
    requires NextOf(s.next, key) == HighWater(s.ranges, key) && Ascending(s.ranges, key)
    requires e.Crash? ==> NextOf(s.saved, key) == NextOf(s.next, key)
    ensures var t := Apply(s, e).value; NextOf(t.next, key) == HighWater(t.ranges, key) && Ascending(t.ranges, key)
  {
    hide HighWater, Min, Ascending;
    if e.Order? {
      var r := RangeOf(s.next, e.key, e.batch);
      OneMoreRange(s.ranges, r, key);
      AscendingExtends(s.ranges, r, key);
    }
  }

  /** A run whose crashes lose nothing of the key is never behind: its ranges are disjoint, and in ascending order. */
  lemma {:induction false} RangesAreDisjoint(events: seq<Event>, key: Short)
    requires After(events).Some? && HighWater(After(events).value.ranges, key) < TWO_64
    requires CrashesLoseNothing(events, key)
    ensures NextOf(After(events).value.next, key) == HighWater(After(events).value.ranges, key)
    ensures NeverBehind(events, key) && DisjointFor(After(events).value.ranges, key)
    ensures Ascending(After(events).value.ranges, key)
  {
    hide HighWater, DisjointFor, NextOf, Ascending, Apply, Covered;
    RangesAreDisjointExactly(events, key);
    if events == [] {
      NothingHandedOut(key);
    } else {
      var n := |events| - 1;
      var s := After(events[..n]).value;
      StepIsCovered(s, events[n], key);
      RangesAreDisjoint(events[..n], key);
      LosslessStep(s, events[n], key);
    }
  }

  lemma NothingHandedOut(key: Short)
    ensures HighWater([], key) == 0 == NextOf(START.next, key) && Ascending([], key)
  {
  }

  /** A crash after a nonempty order forgets it: the next nonempty order starts at the same index. */
  lemma CrashReusesRanges(events: seq<Event>, key: Short, batch: u64, again: u64)
    requires After(events).Some? && batch > 0 && again > 0
    requires NextOf(After(events).value.next, key) == NextOf(After(events).value.saved, key)
    ensures var before := After(events).value;
      var s := After(events + [Order(key, batch), Crash, Order(key, again)]);
      && s.Some? && |s.value.ranges| == |before.ranges| + 2
      && s.value.ranges[|before.ranges|].start == s.value.ranges[|before.ranges| + 1].start
      && !DisjointFor(s.value.ranges, key)
  {
    var e1 := events + [Order(key, batch)];
    var e2 := e1 + [Crash];
    AfterStep(events, Order(key, batch));
    AfterStep(e1, Crash);
    AfterStep(e2, Order(key, again));
    assert e2 + [Order(key, again)] == events + [Order(key, batch), Crash, Order(key, again)];
    var n, rs := |After(events).value.ranges|, After(e2 + [Order(key, again)]).value.ranges;
    assert InRange(rs[n], rs[n].start) && InRange(rs[n + 1], rs[n].start);
  }

  lemma AfterStep(events: seq<Event>, e: Event)
    requires After(events).Some?
    ensures After(events + [e]) == Apply(After(events).value, e)
  {
    hide Apply;
    assert (events + [e])[..|events|] == events;
  }
}
