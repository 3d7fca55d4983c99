/** The admission decision: what counts as new, and the order in which the reasons are tried. */
module Admission {
  import opened Wrappers
  import opened Words
  import opened Signals
  import opened Corpus

  datatype StructuralClass = Trivial | Unnamed

  datatype Decision = Decision(reason: AdmissionReason, novel: seq<u64>)

  /** The residual channel's view of one execution. */
  datatype ResidualInput = ResidualInput(
    newState: set<(Axis, u8)>,
    newMorphology: bool,
    morphClass: Option<StructuralClass>)

  /** Some feature is covered by no entry. */
  ghost predicate BringsCoverage(entries: Entries, features: seq<u64>) {
    exists f :: f in features && forall id :: !Covers(entries, id, f)
  }

  /** The residual channel is on and saw a new state bucket, or a new shape that is not trivial. */
  predicate BringsResidual(residual: Option<ResidualInput>, enabled: bool) {
    enabled && residual.Some?
    && (residual.value.newState != {} || (residual.value.newMorphology && residual.value.morphClass != Some(Trivial)))
  }

  /** Admitted exactly when it is a finding, or brings coverage, or the residual channel finds it new; the first of
      these that applies is the reason, and a new state bucket goes before a new shape. */
  method Decide(index: CorpusIndex, features: seq<u64>, isFinding: bool, residual: Option<ResidualInput>, enabled: bool)
    returns (r: Option<Decision>)
    requires index.Valid()
    ensures r.Some? <==> isFinding || BringsCoverage(index.entries, features) || BringsResidual(residual, enabled)
    ensures r.Some? ==>
      var plain := !isFinding && !BringsCoverage(index.entries, features);
      && (r.value.reason == Crash <==> isFinding)
      && (r.value.reason == NewCoverage <==> !isFinding && BringsCoverage(index.entries, features))
      && (r.value.reason == NewStateFeature <==> plain && residual.value.newState != {})
      && (r.value.reason == StructuredUnknown <==>
            plain && residual.value.newState == {} && residual.value.morphClass == Some(Unnamed))
      && (r.value.reason == NewMorphology <==>
            plain && residual.value.newState == {} && residual.value.morphClass == None)
    ensures r.Some? ==> (r.value.novel != [] <==> r.value.reason == NewCoverage)
    ensures r.Some? && r.value.novel != [] ==>
      forall f :: f in r.value.novel <==> f in features && forall id :: !Covers(index.entries, id, f)
  {
    if isFinding {
      return Some(Decision(Crash, []));
    }
    var novel := index.NovelFeatures(features);
    if novel != [] {
      assert novel[0] in novel;
      return Some(Decision(NewCoverage, novel));
    }
    assert !BringsCoverage(index.entries, features) by {
      if f :| f in features && forall id :: !Covers(index.entries, id, f) {
        assert f in novel;
      }
    }
    if !enabled || residual.None? {
      return None;
    }
    if residual.value.newState != {} {
      return Some(Decision(NewStateFeature, []));
    }
    if residual.value.newMorphology {
      match residual.value.morphClass {
        case Some(Unnamed) => return Some(Decision(StructuredUnknown, []));
        case Some(Trivial) => return None;
        case None => return Some(Decision(NewMorphology, []));
      }
    }
    return None;
  }
}
