/**
 The structural episode machine: an episode opens on an active edge and closes after a run of quiet ones.
 */
module StructuralEpisodes {
  import opened Wrappers
  import opened Words
  import opened Signals

  const REVIEW: nat := 2

  /** What one edge tells the machine: whether any axis is at Review or above, and the fresh verdicts there. */
  datatype EdgeSummary = EdgeSummary(
    ordinal: u64,
    generation: u32,
    active: bool,
    axes: set<Axis>,
    reasons: set<nat>,
    peak: nat)

  datatype OpenEpisode = OpenEpisode(
    tOpen: u64,
    peakOrdinal: u64,
    peakPolicy: nat,
    axes: set<Axis>,
    reasons: set<nat>,
    openGeneration: u32)

  datatype Episode = Episode(
    tOpen: u64,
    tClose: u64,
    peakOrdinal: u64,
    peakPolicy: nat,
    axes: set<Axis>,
    reasons: set<nat>,
    dwell: u64,
    openGeneration: u32)

  datatype Machine = Machine(open: Option<OpenEpisode>, quietRun: nat)

  const IDLE: Machine := Machine(None, 0)

  function Max(a: nat, b: nat): nat {
    if a < b then b else a
  }

  /** saturating t_close - t_open + 1 */
  function Dwell(tOpen: u64, tClose: u64): u64 {
    var d := if tClose < tOpen then 0 else tClose - tOpen;
    if d == 0xFFFF_FFFF_FFFF_FFFF then d else d + 1
  }

  function Correlation(driftWindow: nat): nat {
    Max(driftWindow, 1)
  }

  /** One edge. */
  function Advance(driftWindow: nat, m: Machine, e: EdgeSummary): (Machine, Option<Episode>) {
    match m.open
    case None =>
      (Machine(if e.active
               then Some(OpenEpisode(e.ordinal, e.ordinal, Max(e.peak, REVIEW), e.axes, e.reasons, e.generation))
               else None, 0), None)
    case Some(o) =>
      if e.active then
        (Machine(Some(o.(peakOrdinal := e.ordinal, peakPolicy := Max(o.peakPolicy, e.peak),
                         axes := o.axes + e.axes, reasons := o.reasons + e.reasons)), 0), None)
      else if m.quietRun + 1 >= Correlation(driftWindow) then
        (IDLE, Some(Episode(o.tOpen, e.ordinal, o.peakOrdinal, o.peakPolicy, o.axes, o.reasons,
                            Dwell(o.tOpen, e.ordinal), o.openGeneration)))
      else (Machine(m.open, m.quietRun + 1), None)
  }

  class EpisodeMachine {
    const driftWindow: nat
    var open: Option<OpenEpisode>
    var quietRun: nat

    function Value(): Machine
      reads this
    {
      Machine(open, quietRun)
    }

    constructor (driftWindow: nat)
      ensures this.driftWindow == driftWindow && Value() == IDLE
    {
      this.driftWindow := driftWindow;
      open, quietRun := None, 0;
    }

    /** `advance_episode`. */
    method Feed(e: EdgeSummary) returns (closed: Option<Episode>)
      modifies this
      ensures (Value(), closed) == Advance(driftWindow, old(Value()), e)
    {
      closed := None;
      if open.None? {
        if e.active {
          open := Some(OpenEpisode(e.ordinal, e.ordinal, Max(e.peak, REVIEW), e.axes, e.reasons, e.generation));
        }
        quietRun := 0;
      } else {
        var o := open.value;
        if e.active {
          open := Some(OpenEpisode(o.tOpen, e.ordinal, Max(o.peakPolicy, e.peak), o.axes + e.axes, o.reasons + e.reasons,
                                   o.openGeneration));
          quietRun := 0;
        } else {
          quietRun := quietRun + 1;
          if quietRun >= Max(driftWindow, 1) {
            open := None;
            closed := Some(Episode(o.tOpen, e.ordinal, o.peakOrdinal, o.peakPolicy, o.axes, o.reasons,
                                   Dwell(o.tOpen, e.ordinal), o.openGeneration));
            quietRun := 0;
          }
        }
      }
    }
  }

  // ---- Runs ----

  function Run(w: nat, edges: seq<EdgeSummary>): (Machine, seq<Episode>) {
    if edges == [] then (IDLE, [])
    else
      var (m, episodes) := Run(w, edges[..|edges| - 1]);
      var (m', closed) := Advance(w, m, edges[|edges| - 1]);
      (m', if closed.Some? then episodes + [closed.value] else episodes)
  }

  /** Ordinals count the edges from 1, and only active edges carry verdicts at Review or above. */
  ghost predicate Proper(edges: seq<EdgeSummary>) {
    && (forall i | 0 <= i < |edges| :: edges[i].ordinal == i + 1)
    && (forall i | 0 <= i < |edges| && !edges[i].active :: edges[i].axes == {} && edges[i].reasons == {})
  }

  function AxesOf(edges: seq<EdgeSummary>): set<Axis> {
    set i, x | 0 <= i < |edges| && x in edges[i].axes :: x
  }

  function ReasonsOf(edges: seq<EdgeSummary>): set<nat> {
    set i, x | 0 <= i < |edges| && x in edges[i].reasons :: x
  }

  /** `p` is the largest policy of the active edges, and at least Review. */
  ghost predicate IsPeak(edges: seq<EdgeSummary>, p: nat) {
    && p >= REVIEW
    && (forall i | 0 <= i < |edges| && edges[i].active :: edges[i].peak <= p)
    && (p == REVIEW || exists i :: 0 <= i < |edges| && edges[i].active && edges[i].peak == p)
  }

  predicate QuietFrom(edges: seq<EdgeSummary>, from: nat) {
    forall i | from <= i < |edges| :: !edges[i].active
  }

  /** One of the `n` edges from `i` on is active. */
  predicate ActiveWithin(edges: seq<EdgeSummary>, i: nat, n: nat) {
    i + n <= |edges| && exists j :: i <= j < i + n && edges[j].active
  }

  /** No `n` edges in a row of edges[first .. last + 1] are all quiet. */
  ghost predicate NeverQuietFor(edges: seq<EdgeSummary>, first: nat, last: nat, n: nat) {
    forall i: nat | first <= i && i + n <= last + 1 :: ActiveWithin(edges, i, n)
  }

  /** Edges of one episode: its first and its last active one. */
  datatype Span = Span(first: nat, last: nat)

  /** The activity from `p.first` on makes up `o`, up to the end of the list. */
  ghost predicate MakesUp(w: nat, edges: seq<EdgeSummary>, p: Span, o: OpenEpisode) {
    && p.first <= p.last < |edges| && edges[p.first].active && edges[p.last].active
    && QuietFrom(edges, p.last + 1)
    && NeverQuietFor(edges, p.first, p.last, Correlation(w))
    && o.tOpen == edges[p.first].ordinal && o.openGeneration == edges[p.first].generation
    && o.peakOrdinal == edges[p.last].ordinal
    && o.axes == AxesOf(edges[p.first..]) && o.reasons == ReasonsOf(edges[p.first..])
    && IsPeak(edges[p.first..], o.peakPolicy)
  }

  /** `e` is the episode with span `p`: it closes exactly `Correlation(w)` edges after its last active one. */
  ghost predicate WellFormed(w: nat, edges: seq<EdgeSummary>, p: Span, e: Episode) {
    var close := p.last + Correlation(w);
    && close < |edges|
    && MakesUp(w, edges[..close + 1], p, OpenEpisode(e.tOpen, e.peakOrdinal, e.peakPolicy, e.axes, e.reasons, e.openGeneration))
    && e.tClose == edges[close].ordinal
    && e.dwell == close - p.first + 1 == e.tClose - e.tOpen + 1
  }

  // ---- One more edge ----

  lemma SetsGrow(edges: seq<EdgeSummary>, e: EdgeSummary)
    ensures AxesOf(edges + [e]) == AxesOf(edges) + e.axes
    ensures ReasonsOf(edges + [e]) == ReasonsOf(edges) + e.reasons
  {
    var more := edges + [e];
    assert more[|edges|] == e;
    assert forall i | 0 <= i < |edges| :: more[i] == edges[i];
  }

  lemma PeakGrows(edges: seq<EdgeSummary>, e: EdgeSummary, p: nat)
    requires IsPeak(edges, p)
    ensures IsPeak(edges + [e], if e.active then Max(p, e.peak) else p)
  {
    var more := edges + [e];
    assert more[|edges|] == e;
    if p != REVIEW {
      var i :| 0 <= i < |edges| && edges[i].active && edges[i].peak == p;
      assert more[i] == edges[i];
    }
  }

  /** A quiet edge leaves an open episode as it was. */
  lemma QuietEdgeKeeps(w: nat, edges: seq<EdgeSummary>, e: EdgeSummary, p: Span, o: OpenEpisode)
    requires MakesUp(w, edges, p, o) && !e.active && e.axes == {} && e.reasons == {}
    ensures MakesUp(w, edges + [e], p, o)
  {
    var more := edges + [e];
    hide AxesOf, ReasonsOf, IsPeak;
    assert more[p.first..] == edges[p.first..] + [e];
    assert more[p.first] == edges[p.first] && more[p.last] == edges[p.last];
    SetsGrow(edges[p.first..], e);
    PeakGrows(edges[p.first..], e, o.peakPolicy);
    forall i: nat | p.first <= i && i + Correlation(w) <= p.last + 1 ensures ActiveWithin(more, i, Correlation(w)) {
      assert ActiveWithin(edges, i, Correlation(w));
      var j :| i <= j < i + Correlation(w) && edges[j].active;
      assert more[j].active;
    }
  }

  /** An active edge within the quiet run extends an open episode. */
  lemma ActiveEdgeExtends(w: nat, edges: seq<EdgeSummary>, e: EdgeSummary, p: Span, o: OpenEpisode)
    requires MakesUp(w, edges, p, o) && e.active && |edges| - 1 - p.last < Correlation(w)
    ensures MakesUp(w, edges + [e], Span(p.first, |edges|),
      o.(peakOrdinal := e.ordinal, peakPolicy := Max(o.peakPolicy, e.peak),
         axes := o.axes + e.axes, reasons := o.reasons + e.reasons))
  {
    var more := edges + [e];
    hide AxesOf, ReasonsOf, IsPeak;
    assert more[p.first..] == edges[p.first..] + [e];
    assert more[p.first] == edges[p.first] && more[p.last] == edges[p.last];
    SetsGrow(edges[p.first..], e);
    PeakGrows(edges[p.first..], e, o.peakPolicy);
    forall i: nat | p.first <= i && i + Correlation(w) <= |edges| + 1 ensures ActiveWithin(more, i, Correlation(w)) {
      if i + Correlation(w) == |edges| + 1 {
        assert more[|edges|].active;
      } else if i + Correlation(w) <= p.last + 1 {
        assert ActiveWithin(edges, i, Correlation(w));
        var j :| i <= j < i + Correlation(w) && edges[j].active;
        assert more[j].active;
      } else {
        assert more[p.last].active;
      }
    }
  }

  /** An active edge outside an episode opens one. */
  lemma ActiveEdgeOpens(w: nat, edges: seq<EdgeSummary>, e: EdgeSummary)
    requires e.active
    ensures MakesUp(w, edges + [e], Span(|edges|, |edges|),
      OpenEpisode(e.ordinal, e.ordinal, Max(e.peak, REVIEW), e.axes, e.reasons, e.generation))
  {
    var more := edges + [e];
    assert more[|edges|..] == [e];
    assert [e] == [] + [e];
    SetsGrow([], e);
    assert AxesOf([]) == {} && ReasonsOf([]) == {};
    assert [e][0] == e;
  }

  // ---- The theorem ----

  /** The spans of a run: in order, none overlapping the quiet run of the one before. */
  ghost predicate InOrder(w: nat, spans: seq<Span>) {
    forall i | 0 < i < |spans| :: spans[i - 1].last + Correlation(w) < spans[i].first
  }

  /** Where the activity not yet accounted for may start. */
  function After(w: nat, spans: seq<Span>): nat {
    if spans == [] then 0 else spans[|spans| - 1].last + Correlation(w) + 1
  }

  /** The machine's state read off the edges: idle, with nothing active since the last episode, or in an episode. */
  ghost predicate Explains(w: nat, edges: seq<EdgeSummary>, spans: seq<Span>, current: Span, m: Machine) {
    && After(w, spans) <= |edges|
    && match m.open
       case None => m.quietRun == 0 && QuietFrom(edges, After(w, spans))
       case Some(o) =>
         && After(w, spans) <= current.first <= current.last < |edges| && MakesUp(w, edges, current, o)
         && (forall i | After(w, spans) <= i < current.first :: !edges[i].active)
         && m.quietRun == |edges| - 1 - current.last < Correlation(w)
  }

  /** One edge keeps the explanation; a closing edge turns the open span into a finished one. */
  lemma ExplainsStep(w: nat, edges: seq<EdgeSummary>, e: EdgeSummary, spans: seq<Span>, current: Span, m: Machine)
    returns (spans': seq<Span>, current': Span)
    requires Proper(edges + [e]) && Explains(w, edges, spans, current, m) && InOrder(w, spans)
    ensures InOrder(w, spans') && Explains(w, edges + [e], spans', current', Advance(w, m, e).0)
    ensures match Advance(w, m, e).1
      case None => spans' == spans
      case Some(episode) => spans' == spans + [current] && WellFormed(w, edges + [e], current, episode)
  {
    hide WellFormed, MakesUp;
    var n, more := |edges|, edges + [e];
    assert more[n] == e && forall i | 0 <= i < n :: more[i] == edges[i];
    spans', current' := spans, current;
    if m.open.None? {
      if e.active {
        ActiveEdgeOpens(w, edges, e);
        current' := Span(n, n);
      }
    } else if e.active {
      ActiveEdgeExtends(w, edges, e, current, m.open.value);
      current' := Span(current.first, n);
    } else {
      QuietEdgeKeeps(w, edges, e, current, m.open.value);
      if m.quietRun + 1 >= Correlation(w) {
        Closing(w, more, current, m.open.value);
        spans' := spans + [current];
      }
    }
  }

  /** Every closed episode of a run is well formed, they come in order, and every active edge is in one of them or in the
      open one. */
  lemma {:induction false} EpisodesAreWellFormed(w: nat, edges: seq<EdgeSummary>)
    returns (spans: seq<Span>, current: Span)
    requires Proper(edges)
    ensures |spans| == |Run(w, edges).1| && InOrder(w, spans)
    ensures forall i | 0 <= i < |spans| :: WellFormed(w, edges, spans[i], Run(w, edges).1[i])
    ensures Explains(w, edges, spans, current, Run(w, edges).0)
  {
    if edges == [] {
      spans, current := [], Span(0, 0);
    } else {
      hide WellFormed, Explains, InOrder, Advance, Proper;
      var n := |edges| - 1;
      var before, e := edges[..n], edges[n];
      ProperPrefix(edges, n);
      var earlier, cur := EpisodesAreWellFormed(w, before);
      var (m, episodes) := Run(w, before);
      assert edges == before + [e];
      spans, current := ExplainsStep(w, before, e, earlier, cur, m);
      forall i | 0 <= i < |earlier| ensures WellFormed(w, edges, earlier[i], episodes[i]) {
        WellFormedStays(w, before, e, earlier[i], episodes[i]);
      }
    }
  }

  /** An episode closes a whole drift window, and at least one edge, after its last active edge. */
  lemma ClosesAfterWindow(w: nat, edges: seq<EdgeSummary>, p: Span, e: Episode)
    requires Proper(edges) && WellFormed(w, edges, p, e)
    ensures e.tClose == e.peakOrdinal + if w == 0 then 1 else w
  {
    hide NeverQuietFor, QuietFrom, AxesOf, ReasonsOf, IsPeak;
    assert edges[..p.last + Correlation(w) + 1][p.last] == edges[p.last];
  }

  lemma ProperPrefix(edges: seq<EdgeSummary>, n: nat)
    requires Proper(edges) && n <= |edges|
    ensures Proper(edges[..n])
  {
  }

  lemma WellFormedStays(w: nat, edges: seq<EdgeSummary>, e: EdgeSummary, p: Span, episode: Episode)
    requires WellFormed(w, edges, p, episode)
    ensures WellFormed(w, edges + [e], p, episode)
  {
    var close := p.last + Correlation(w);
    hide MakesUp;
    assert (edges + [e])[..close + 1] == edges[..close + 1];
  }

  lemma Closing(w: nat, edges: seq<EdgeSummary>, p: Span, o: OpenEpisode)
    requires Proper(edges) && MakesUp(w, edges, p, o) && |edges| - 1 == p.last + Correlation(w)
    ensures var last := edges[|edges| - 1].ordinal;
      WellFormed(w, edges, p,
        Episode(o.tOpen, last, o.peakOrdinal, o.peakPolicy, o.axes, o.reasons, Dwell(o.tOpen, last), o.openGeneration))
  {
    assert edges[..|edges|] == edges;
    assert edges[p.first].ordinal == p.first + 1 && edges[|edges| - 1].ordinal == |edges|;
    hide NeverQuietFor, QuietFrom, AxesOf, ReasonsOf, IsPeak;
  }

  /** The recorded peak ordinal is that of the last active edge, which need not be one that reached the peak policy:
      with a window of one, edges at policies 3, 2 and a quiet one give peak policy 3 at the second edge. */
  lemma PeakOrdinalIsNotThePeak()
    ensures var edges := [EdgeSummary(1, 1, true, {0}, {}, 3), EdgeSummary(2, 2, true, {0}, {}, 2),
                          EdgeSummary(3, 3, false, {}, {}, 0)];
      var episodes := Run(1, edges).1;
      && Proper(edges) && |episodes| == 1
      && episodes[0].peakPolicy == edges[0].peak > edges[1].peak
      && episodes[0].peakOrdinal == edges[1].ordinal
  {
    var a, b, c := EdgeSummary(1, 1, true, {0}, {}, 3), EdgeSummary(2, 2, true, {0}, {}, 2), EdgeSummary(3, 3, false, {}, {}, 0);
    assert [a, b, c][..2] == [a, b] && [a, b][..1] == [a] && [a][..0] == [];
    assert Run(1, []) == (IDLE, []);
    assert Run(1, [a]) == (Machine(Some(OpenEpisode(1, 1, 3, {0}, {}, 1)), 0), []);
    assert a.axes + b.axes == {0} && a.reasons + b.reasons == {};
    assert Run(1, [a, b]).0 == Machine(Some(OpenEpisode(1, 2, 3, {0}, {}, 1)), 0);
  }

  /** When the peak ordinal does name an edge of the peak policy: exactly when the last active edge brought a fresh verdict
      at Review or above, and no earlier edge of the episode brought a higher one. */
  lemma PeakOrdinalExactly(w: nat, edges: seq<EdgeSummary>, p: Span, e: Episode)
    requires WellFormed(w, edges, p, e)
    ensures edges[p.last].ordinal == e.peakOrdinal
    ensures edges[p.last].peak == e.peakPolicy <==>
      edges[p.last].peak >= REVIEW
      && forall j | p.first <= j < p.last && edges[j].active :: edges[j].peak <= edges[p.last].peak
  {
    var prefix := edges[..p.last + Correlation(w) + 1];
    var span := prefix[p.first..];
    hide NeverQuietFor, AxesOf, ReasonsOf;
    assert IsPeak(span, e.peakPolicy);
    assert forall i | 0 <= i < |span| :: span[i] == edges[p.first + i];
    assert span[p.last - p.first] == edges[p.last];
    if edges[p.last].peak == e.peakPolicy {
      forall j | p.first <= j < p.last && edges[j].active ensures edges[j].peak <= edges[p.last].peak {
        assert span[j - p.first] == edges[j];
      }
    } else if edges[p.last].peak >= REVIEW {
      var i :| 0 <= i < |span| && span[i].active && span[i].peak == e.peakPolicy;
      assert prefix[p.first + i].active && p.first + i < p.last;
    }
  }
}
