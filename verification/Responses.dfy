/** The rule-based summary of a timeline. */
module Responses {
  import opened Events
  import opened Causality
  import opened Correlation
  import opened Timelines
  import opened Summaries
  import Seqs

  datatype Summary =
    | NoEvents
    | NoRootCause(total: nat)
    | Report(total: nat, objects: seq<string>, reasons: seq<string>, downstream: int)

  function ObjectKey(ce: CorrelatedEvent): string {
    ce.event.objectKind + "/" + ce.event.objectName
  }

  function ObjectKeys(ces: seq<CorrelatedEvent>): set<string> {
    set ce | ce in ces :: ObjectKey(ce)
  }

  /** Every involved object once, in whatever order the set is walked. */
  method AffectedObjects(tl: Timeline) returns (out: seq<string>)
    ensures NoDuplicates(out) && Distinct(out) == ObjectKeys(tl.events)
    ensures forall key :: key in out <==>
              exists ce :: ce in tl.events && key == ce.event.objectKind + "/" + ce.event.objectName
  {
    var seen: set<string> := {};
    for i := 0 to |tl.events|
      invariant seen == ObjectKeys(tl.events[..i])
    {
      assert tl.events[..i + 1] == tl.events[..i] + [tl.events[i]];
      seen := seen + {ObjectKey(tl.events[i])};
    }
    assert tl.events[..|tl.events|] == tl.events;
    out := Elements(seen);
    forall key
      ensures key in out <==> exists ce :: ce in tl.events && key == ce.event.objectKind + "/" + ce.event.objectName
    {
      assert key in out <==> key in Distinct(out);
    }
  }

  /** The reasons of the root causes in order of first appearance. */
  function DistinctReasons(roots: seq<CorrelatedEvent>): seq<string> {
    if roots == [] then []
    else
      var p, r := DistinctReasons(roots[..|roots|-1]), roots[|roots|-1].event.reason;
      if r in p then p else p + [r]
  }

  /** Later root causes only add reasons at the end: they are in order of first appearance. */
  lemma {:induction false} DistinctReasonsGrow(roots: seq<CorrelatedEvent>, more: seq<CorrelatedEvent>)
    ensures DistinctReasons(roots) <= DistinctReasons(roots + more)
  {
    if more == [] {
      assert roots + more == roots;
    } else {
      DistinctReasonsGrow(roots, more[..|more|-1]);
      assert (roots + more)[..|roots + more|-1] == roots + more[..|more|-1];
    }
  }

  method RootReasons(roots: seq<CorrelatedEvent>) returns (reasons: seq<string>)
    ensures reasons == DistinctReasons(roots)
  {
    reasons := [];
    var seen: set<string> := {};
    for i := 0 to |roots|
      invariant reasons == DistinctReasons(roots[..i])
      invariant forall r :: r in seen <==> r in reasons
    {
      assert roots[..i + 1][..i] == roots[..i];
      var r := roots[i].event.reason;
      if r !in seen {
        reasons := reasons + [r];
        seen := seen + {r};
      }
    }
    assert roots[..|roots|] == roots;
  }

  lemma {:induction false} DistinctReasonsExact(roots: seq<CorrelatedEvent>)
    ensures NoDuplicates(DistinctReasons(roots))
    ensures forall r :: r in DistinctReasons(roots) <==> exists ce :: ce in roots && ce.event.reason == r
  {
    if roots == [] {
    } else {
      var p, last := roots[..|roots|-1], roots[|roots|-1];
      assert roots == p + [last];
      DistinctReasonsExact(p);
      assert forall i :: 0 <= i < |DistinctReasons(p)| ==> DistinctReasons(p)[i] in DistinctReasons(p);
      forall r
        ensures r in DistinctReasons(roots) <==> exists ce :: ce in roots && ce.event.reason == r
      {
        if r in DistinctReasons(p) {
          var ce :| ce in p && ce.event.reason == r;
          assert ce in roots;
        }
        assert last in roots;
      }
    }
  }

  ghost predicate SummaryOf(s: Summary, tl: Timeline) {
    match s
    case NoEvents => tl.events == []
    case NoRootCause(total) => tl.events != [] && tl.rootCauses == [] && total == |tl.events|
    case Report(total, objects, reasons, downstream) =>
      && tl.events != [] && tl.rootCauses != []
      && total == |tl.events|
      && NoDuplicates(objects) && Distinct(objects) == ObjectKeys(tl.events)
      && reasons == DistinctReasons(tl.rootCauses)
      && downstream == |tl.events| - |tl.rootCauses|
  }

  method Summarise(tl: Timeline) returns (s: Summary)
    ensures SummaryOf(s, tl)
  {
    if |tl.events| == 0 {
      return NoEvents;
    }
    if |tl.rootCauses| == 0 {
      return NoRootCause(|tl.events|);
    }
    var reasons := RootReasons(tl.rootCauses);
    var objects := AffectedObjects(tl);
    return Report(|tl.events|, objects, reasons, |tl.events| - |tl.rootCauses|);
  }

  function EffectsOf(ces: seq<CorrelatedEvent>): seq<CorrelatedEvent> {
    Seqs.Filter((ce: CorrelatedEvent) => ce.causedBy != "", ces)
  }

  lemma {:induction false} RootsAndEffects(ces: seq<CorrelatedEvent>)
    requires forall ce :: ce in ces ==> (ce.isRootCause <==> ce.causedBy == "")
    ensures |RootsOf(ces)| + |EffectsOf(ces)| == |ces|
  {
    if ces == [] {
    } else {
      assert ces[|ces|-1] in ces;
      assert forall ce :: ce in ces[..|ces|-1] ==> ce in ces;
      RootsAndEffects(ces[..|ces|-1]);
    }
  }

  lemma FlagMeansNoCause(idx: CausedBy, evs: seq<NormalizedEvent>, tl: Timeline, ce: CorrelatedEvent)
    requires IsRun(idx, evs, tl) && ce in tl.events
    ensures ce.isRootCause <==> ce.causedBy == ""
  {
    var s: seq<NormalizedEvent> :| RunWith(idx, evs, s, tl);
    Seqs.SameMembers(tl.events, AnnotateAll(idx, s), ce);
    var i :| 0 <= i < |s| && AnnotateAll(idx, s)[i] == ce;
  }

  /**
    On a correlated timeline the "no clear root cause" answer is never given; the report
    counts all input events, and its downstream figure is the number of events with a cause.
   */
  lemma SummaryOfRun(idx: CausedBy, evs: seq<NormalizedEvent>, tl: Timeline, s: Summary)
    requires IsInverse(idx, CAUSAL_EDGES) && IsRun(idx, evs, tl) && SummaryOf(s, tl)
    ensures evs == [] <==> s.NoEvents?
    ensures evs != [] <==> s.Report?
    ensures s.Report? ==> s.total == |evs| && s.downstream == |EffectsOf(tl.events)|
  {
    CorrelationConserves(idx, evs, tl);
    Seqs.SameLength(Seqs.Map(Plain, tl.events), evs);
    forall ce | ce in tl.events
      ensures ce.isRootCause <==> ce.causedBy == ""
    {
      FlagMeansNoCause(idx, evs, tl, ce);
    }
    RootsAndEffects(tl.events);
    if evs != [] {
      KnownCausesClimb();
      GroupsHaveRoots(KNOWN_CAUSES, idx, evs, tl, tl.events[0]);
    }
  }
}
