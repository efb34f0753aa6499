/** Executing a plan against one cluster agent's store, and what a restart plan collects. */
module Execution {
  import opened Events
  import opened Episodes
  import opened Scans
  import opened Summaries
  import opened EventStore
  import opened Planning
  import Seqs

  datatype ExecutionResult = ExecutionResult(events: seq<NormalizedEvent>, summaries: seq<NamespaceSummary>,
                                             stepErrors: seq<nat>)

  predicate IsAbout(e: NormalizedEvent, kind: string, name: string) {
    e.objectKind == kind && e.objectName == name
  }

  function ListFilter(c: Call): Filter
    requires c.ListEvents?
  {
    Filter(c.namespace, "", c.reason, c.since, c.limit)
  }

  function ScopeFilter(namespace: string, since: Time): Filter {
    Filter(namespace, "", "", since, 0)
  }

  function EventsAbout(kind: string, name: string, evs: seq<NormalizedEvent>): seq<NormalizedEvent> {
    Seqs.Filter((e: NormalizedEvent) => IsAbout(e, kind, name), evs)
  }

  /** The object's events within an unlimited answer for its namespace. */
  ghost predicate AnswersObject(evs: seq<NormalizedEvent>, namespace: string, kind: string, name: string,
                                live: seq<NormalizedEvent>)
  {
    exists all :: Answers(all, ScopeFilter(namespace, ZERO_TIME), live) && evs == EventsAbout(kind, name, all)
  }

  /** What a successful call contributes to the collected events and summaries. */
  ghost predicate Contributes(c: Call, live: seq<NormalizedEvent>, evs: seq<NormalizedEvent>,
                              rows: seq<NamespaceSummary>)
  {
    match c
    case ListEvents(_, _, _, _) => Answers(evs, ListFilter(c), live) && rows == []
    case GetEventsForObject(namespace, kind, name) => AnswersObject(evs, namespace, kind, name, live) && rows == []
    case GetNamespaceSummary(namespace, since) =>
      evs == [] && SummaryExact(rows, Scan(ScopeFilter(namespace, since), live))
    case _ => evs == [] && rows == []
  }

  method EventsForObject(store: Store, namespace: string, kind: string, name: string)
    returns (evs: seq<NormalizedEvent>)
    requires store.Valid()
    ensures store.Valid() && AnswersObject(evs, namespace, kind, name, store.Contents())
  {
    var all := store.Query(ScopeFilter(namespace, ZERO_TIME));
    evs := EventsAbout(kind, name, all);
  }

  method RunStep(store: Store, c: Call) returns (evs: seq<NormalizedEvent>, rows: seq<NamespaceSummary>)
    requires store.Valid()
    ensures store.Valid() && Contributes(c, store.Contents(), evs, rows)
  {
    evs, rows := [], [];
    match c {
      case ListEvents(_, _, _, _) =>
        evs := store.Query(ListFilter(c));
      case GetEventsForObject(namespace, kind, name) =>
        evs := EventsForObject(store, namespace, kind, name);
      case GetNamespaceSummary(namespace, since) =>
        rows := store.SummarizeNamespace(namespace, since);
      case _ =>
    }
  }

  function Concat<T>(parts: seq<seq<T>>): seq<T> {
    if parts == [] then [] else Concat(parts[..|parts|-1]) + parts[|parts|-1]
  }

  lemma {:induction false} ConcatAppend<T>(parts: seq<seq<T>>, p: seq<T>)
    ensures Concat(parts + [p]) == Concat(parts) + p
  {
    assert (parts + [p])[..|parts|] == parts;
  }

  lemma {:induction false} ConcatPrefix<T>(parts: seq<seq<T>>, n: nat)
    requires n < |parts|
    ensures Concat(parts[..n + 1]) == Concat(parts[..n]) + parts[n]
  {
    ConcatAppend(parts[..n], parts[n]);
    assert parts[..n + 1] == parts[..n] + [parts[n]];
  }

  /** A step contributes its own answer, or nothing when it fails. */
  ghost predicate StepDone(c: Call, failed: bool, live: seq<NormalizedEvent>, evs: seq<NormalizedEvent>,
                           rows: seq<NamespaceSummary>)
  {
    if failed then evs == [] && rows == [] else Contributes(c, live, evs, rows)
  }

  function FailedSteps(fails: seq<bool>, n: nat): seq<nat>
    requires n <= |fails|
  {
    if n == 0 then [] else FailedSteps(fails, n - 1) + if fails[n - 1] then [n - 1] else []
  }

  lemma {:induction false} FailedStepsInFields(fails: seq<bool>, n: nat)
    requires n <= |fails|
    ensures forall i :: i in FailedSteps(fails, n) <==> 0 <= i < n && fails[i]
  {
    if n == 0 {
    } else {
      FailedStepsInFields(fails, n - 1);
    }
  }

  ghost predicate StepAt(steps: seq<Call>, fails: seq<bool>, live: seq<NormalizedEvent>,
                         evs: seq<seq<NormalizedEvent>>, rows: seq<seq<NamespaceSummary>>, i: nat)
    requires i < |evs| == |rows| && i < |steps| == |fails|
  {
    StepDone(steps[i], fails[i], live, evs[i], rows[i])
  }

  /** The first `n` steps are done, and the result holds exactly what they contributed and which of them failed. */
  ghost predicate Executed(steps: seq<Call>, fails: seq<bool>, live: seq<NormalizedEvent>, n: nat,
                           result: ExecutionResult, evs: seq<seq<NormalizedEvent>>, rows: seq<seq<NamespaceSummary>>)
  {
    && |evs| == |rows| == n <= |steps| == |fails|
    && (forall i :: 0 <= i < n ==> StepAt(steps, fails, live, evs, rows, i))
    && result.events == Concat(evs) && result.summaries == Concat(rows)
    && result.stepErrors == FailedSteps(fails, n)
  }

  lemma {:induction false} ExecutedStep(steps: seq<Call>, fails: seq<bool>, live: seq<NormalizedEvent>, n: nat,
                                        result: ExecutionResult, evs: seq<seq<NormalizedEvent>>,
                                        rows: seq<seq<NamespaceSummary>>, e: seq<NormalizedEvent>,
                                        r: seq<NamespaceSummary>)
    requires Executed(steps, fails, live, n, result, evs, rows) && n < |steps|
             && StepDone(steps[n], fails[n], live, e, r)
    ensures Executed(steps, fails, live, n + 1,
                     ExecutionResult(result.events + e, result.summaries + r,
                                     result.stepErrors + if fails[n] then [n] else []),
                     evs + [e], rows + [r])
  {
    ConcatAppend(evs, e);
    ConcatAppend(rows, r);
    forall i | 0 <= i < n + 1
      ensures StepAt(steps, fails, live, evs + [e], rows + [r], i)
    {
      assert i < n ==> StepAt(steps, fails, live, evs, rows, i);
    }
  }

  method Attempt(store: Store, c: Call, fail: bool, ghost live: seq<NormalizedEvent>)
    returns (evs: seq<NormalizedEvent>, rows: seq<NamespaceSummary>)
    requires store.Valid() && store.Contents() == live
    ensures store.Valid() && store.Contents() == live && StepDone(c, fail, live, evs, rows)
  {
    evs, rows := [], [];
    if !fail {
      evs, rows := RunStep(store, c);
    }
  }

  /**
    `result` is what running the steps can give: each contributes its own answer, in order, or
    nothing and an error.
   */
  ghost predicate IsExecution(steps: seq<Call>, fails: seq<bool>, live: seq<NormalizedEvent>, result: ExecutionResult) {
    exists evs, rows :: Executed(steps, fails, live, |steps|, result, evs, rows)
  }

  /** Runs the steps in order; a failing step is recorded and the rest still run. */
  method Execute(store: Store, steps: seq<Call>, fails: seq<bool>) returns (result: ExecutionResult)
    requires store.Valid() && |fails| == |steps|
    ensures store.Valid() && IsExecution(steps, fails, store.Contents(), result)
    ensures forall i :: i in result.stepErrors <==> 0 <= i < |steps| && fails[i]
  {
    FailedStepsInFields(fails, |fails|);
    result := ExecutionResult([], [], []);
    ghost var evs, rows := [], [];
    ghost var live := store.Contents();
    var i := 0;
    while i < |steps|
      invariant i <= |steps|
      invariant store.Valid() && store.Contents() == live
      invariant Executed(steps, fails, live, i, result, evs, rows)
    {
      var e, r := Attempt(store, steps[i], fails[i], live);
      ExecutedStep(steps, fails, live, i, result, evs, rows, e, r);
      result := ExecutionResult(result.events + e, result.summaries + r,
                                result.stepErrors + if fails[i] then [i] else []);
      evs, rows := evs + [e], rows + [r];
      i := i + 1;
    }
  }

  // ---- what a restart plan collects ----

  /** The stored events in scope whose reason is one of `reasons`, by a linear scan. */
  function InScope(q: Query, reasons: seq<string>, live: seq<NormalizedEvent>): seq<NormalizedEvent> {
    Seqs.Filter(Targeted(q, reasons), live)
  }

  function Targeted(q: Query, reasons: seq<string>): NormalizedEvent -> bool {
    (e: NormalizedEvent) => Matches(ScopeFilter(q.namespace, q.since), e) && e.reason in reasons
  }

  lemma {:induction false} InScopeAdd(q: Query, reasons: seq<string>, r: string, live: seq<NormalizedEvent>)
    requires r != "" && r !in reasons
    ensures multiset(InScope(q, reasons + [r], live)) ==
            multiset(InScope(q, reasons, live)) + multiset(Scan(ListFilter(RestartStep(q, r)), live))
  {
    assert forall x :: x in reasons + [r] <==> x in reasons || x == r;
    Seqs.FilterSplit(Targeted(q, reasons + [r]), Targeted(q, reasons), Matching(ListFilter(RestartStep(q, r))), live);
  }

  ghost predicate AreTargets(reasons: seq<string>) {
    forall i :: 0 <= i < |reasons| ==> reasons[i] != "" && reasons[i] !in reasons[..i]
  }

  lemma {:induction false} RestartReasonsDistinct()
    ensures AreTargets(RESTART_REASONS)
  {
  }

  /** Of the first `n` reasons, those whose query did not fail; step 0 is the summary. */
  function Answered(reasons: seq<string>, fails: seq<bool>, n: nat): seq<string>
    requires n <= |reasons| && n < |fails|
  {
    if n == 0 then []
    else if fails[n] then Answered(reasons, fails, n - 1)
    else Answered(reasons, fails, n - 1) + [reasons[n - 1]]
  }

  lemma {:induction false} AnsweredMember(reasons: seq<string>, fails: seq<bool>, n: nat, r: string)
    requires n <= |reasons| && n < |fails|
    ensures r in Answered(reasons, fails, n) <==> exists i :: 0 <= i < n && reasons[i] == r && !fails[i + 1]
  {
    if n == 0 {
    } else {
      AnsweredMember(reasons, fails, n - 1, r);
    }
  }

  lemma {:induction false} AllAnswered(reasons: seq<string>, fails: seq<bool>, n: nat)
    requires n <= |reasons| && n < |fails| && forall i :: 1 <= i <= n ==> !fails[i]
    ensures Answered(reasons, fails, n) == reasons[..n]
  {
    if n == 0 {
    } else {
      AllAnswered(reasons, fails, n - 1);
    }
  }

  /** `evs` is exactly the events in scope with one of `reasons`, each once. */
  ghost predicate Collects(q: Query, reasons: seq<string>, live: seq<NormalizedEvent>, evs: seq<NormalizedEvent>) {
    multiset(evs) == multiset(InScope(q, reasons, live))
  }

  /** What the query for one reason gives. */
  ghost predicate AnswersReason(q: Query, reason: string, failed: bool, live: seq<NormalizedEvent>,
                                evs: seq<NormalizedEvent>)
  {
    if failed then evs == [] else multiset(evs) == multiset(Scan(ListFilter(RestartStep(q, reason)), live))
  }

  lemma {:induction false} CollectsNothing(q: Query, live: seq<NormalizedEvent>)
    ensures Collects(q, [], live, [])
  {
    Seqs.FilterNone(Targeted(q, []), live);
  }

  lemma {:induction false} CollectsMore(q: Query, reasons: seq<string>, r: string, live: seq<NormalizedEvent>,
                                        before: seq<NormalizedEvent>, evs: seq<NormalizedEvent>,
                                        after: seq<NormalizedEvent>)
    requires Collects(q, reasons, live, before) && AnswersReason(q, r, false, live, evs) && after == before + evs
    requires r != "" && r !in reasons
    ensures Collects(q, reasons + [r], live, after)
  {
    InScopeAdd(q, reasons, r, live);
  }

  /** The next reason, answered or not. */
  lemma {:induction false} TargetedStep(q: Query, reasons: seq<string>, fails: seq<bool>, live: seq<NormalizedEvent>,
                                        n: nat, before: seq<NormalizedEvent>, evs: seq<NormalizedEvent>,
                                        after: seq<NormalizedEvent>)
    requires AreTargets(reasons) && 0 < n <= |reasons| && n < |fails|
    requires Collects(q, Answered(reasons, fails, n - 1), live, before)
    requires AnswersReason(q, reasons[n - 1], fails[n], live, evs) && after == before + evs
    ensures Collects(q, Answered(reasons, fails, n), live, after)
  {
    if fails[n] {
      assert after == before;
    } else {
      var r := reasons[n - 1];
      AnsweredMember(reasons, fails, n - 1, r);
      assert forall i :: 0 <= i < n - 1 ==> reasons[..n - 1][i] == reasons[i];
      CollectsMore(q, Answered(reasons, fails, n - 1), r, live, before, evs, after);
    }
  }

  /** The summary contributes no events, and every further step answers its own reason. */
  ghost predicate AnswersTargets(q: Query, reasons: seq<string>, fails: seq<bool>, live: seq<NormalizedEvent>,
                                 evs: seq<seq<NormalizedEvent>>)
  {
    && |evs| == |fails| == |reasons| + 1 && evs[0] == []
    && forall i :: 1 <= i < |evs| ==> AnswersReason(q, reasons[i - 1], fails[i], live, evs[i])
  }

  /** Queries targeted at distinct reasons collect exactly the events in scope with an answered reason, each once. */
  lemma {:induction false} TargetedQueries(q: Query, reasons: seq<string>, fails: seq<bool>,
                                           live: seq<NormalizedEvent>, evs: seq<seq<NormalizedEvent>>, n: nat)
    requires AreTargets(reasons) && n <= |reasons| && AnswersTargets(q, reasons, fails, live, evs)
    ensures Collects(q, Answered(reasons, fails, n), live, Concat(evs[..n + 1]))
  {
    if n == 0 {
      CollectsNothing(q, live);
      ConcatPrefix(evs, 0);
    } else {
      TargetedQueries(q, reasons, fails, live, evs, n - 1);
      ConcatPrefix(evs, n);
      TargetedStep(q, reasons, fails, live, n, Concat(evs[..n]), evs[n], Concat(evs[..n + 1]));
    }
  }

  lemma {:induction false} ScopeTotal(q: Query, reasons: seq<string>, r: string, live: seq<NormalizedEvent>)
    requires r in reasons
    ensures ReasonTotal(InScope(q, reasons, live), r) == ReasonTotal(Scan(ScopeFilter(q.namespace, q.since), live), r)
  {
    if live == [] {
    } else {
      var f := ScopeFilter(q.namespace, q.since);
      var p, e := live[..|live|-1], live[|live|-1];
      ScopeTotal(q, reasons, r, p);
      Seqs.SumAppend(CountIf(r), InScope(q, reasons, p), e);
      Seqs.SumAppend(CountIf(r), Scan(f, p), e);
      assert Scan(f, live) == Scan(f, p) + if Matches(f, e) then [e] else [];
      assert InScope(q, reasons, live) ==
             InScope(q, reasons, p) + if Matches(f, e) && e.reason in reasons then [e] else [];
      if Matches(f, e) {
        if e.reason !in reasons {
          assert InScope(q, reasons, live) == InScope(q, reasons, p);
        }
      } else {
        assert Scan(f, live) == Scan(f, p) && InScope(q, reasons, live) == InScope(q, reasons, p);
      }
    }
  }

  /** What running a plan targeted at `reasons` gives, whichever steps fail. */
  ghost predicate CollectedFor(q: Query, reasons: seq<string>, live: seq<NormalizedEvent>, fails: seq<bool>,
                               result: ExecutionResult)
    requires |fails| == |reasons| + 1
  {
    var answered := Answered(reasons, fails, |reasons|);
    && Collects(q, answered, live, result.events)
    && SummarisesExactly(q, fails[0], live, result.summaries)
    && (forall row :: row in result.summaries && row.reason in answered ==> TotalAgrees(row, result.events))
    && result.stepErrors == FailedSteps(fails, |fails|)
  }

  lemma {:induction false} TargetedPlanCollects(q: Query, reasons: seq<string>, live: seq<NormalizedEvent>,
                                                fails: seq<bool>, result: ExecutionResult)
    requires AreTargets(reasons) && IsExecution(TargetedSteps(q, reasons), fails, live, result)
    ensures |fails| == |reasons| + 1 && CollectedFor(q, reasons, live, fails, result)
  {
    var steps := TargetedSteps(q, reasons);
    var evs, rows :| Executed(steps, fails, live, |steps|, result, evs, rows);
    CollectedEvents(q, reasons, live, fails, result, evs, rows);
    TargetedShape(q, reasons);
    FirstSummarises(steps, q, fails, live, result);
    var answered := Answered(reasons, fails, |reasons|);
    forall row | row in result.summaries && row.reason in answered
      ensures TotalAgrees(row, result.events)
    {
      CollectedTotal(q, answered, live, result, row);
    }
  }

  /**
    Whichever steps of a restart plan fail, the collected events are exactly the stored events
    in scope with a reason whose query succeeded, each once. If the summary step succeeds, its
    rows are exact, and for each answered reason the row holds the total of the collected counts.
   */
  lemma {:induction false} RestartPlanCollects(q: Query, live: seq<NormalizedEvent>, fails: seq<bool>,
                                               result: ExecutionResult)
    requires IsExecution(Restarts(q), fails, live, result)
    ensures |fails| == |RESTART_REASONS| + 1 && CollectedFor(q, RESTART_REASONS, live, fails, result)
    ensures (forall i :: 0 <= i < |fails| ==> !fails[i]) ==>
              multiset(result.events) == multiset(InScope(q, RESTART_REASONS, live))
  {
    RestartReasonsDistinct();
    TargetedPlanCollects(q, RESTART_REASONS, live, fails, result);
    if forall i :: 0 <= i < |fails| ==> !fails[i] {
      EverythingCollected(q, RESTART_REASONS, live, fails, result);
    }
  }

  lemma {:induction false} EverythingCollected(q: Query, reasons: seq<string>, live: seq<NormalizedEvent>,
                                               fails: seq<bool>, result: ExecutionResult)
    requires |fails| == |reasons| + 1 && CollectedFor(q, reasons, live, fails, result)
    requires forall i :: 0 <= i < |fails| ==> !fails[i]
    ensures multiset(result.events) == multiset(InScope(q, reasons, live))
  {
    AllAnswered(reasons, fails, |reasons|);
    assert reasons[..|reasons|] == reasons;
  }

  /** The row's total is the sum of the collected counts, as far as 32 bits can hold it. */
  ghost predicate TotalAgrees(row: NamespaceSummary, evs: seq<NormalizedEvent>) {
    var total := ReasonTotal(evs, row.reason);
    && row.totalCount == Wrap32(total)
    && (row.totalCount == total <==> -0x8000_0000 <= total < 0x8000_0000)
  }

  lemma {:induction false} CollectedTotal(q: Query, reasons: seq<string>, live: seq<NormalizedEvent>,
                                          result: ExecutionResult, row: NamespaceSummary)
    requires Collects(q, reasons, live, result.events)
    requires SummaryExact(result.summaries, Scan(ScopeFilter(q.namespace, q.since), live))
    requires row in result.summaries && row.reason in reasons
    ensures TotalAgrees(row, result.events)
  {
    var i :| 0 <= i < |result.summaries| && result.summaries[i] == row;
    assert RowExact(row, Scan(ScopeFilter(q.namespace, q.since), live));
    ScopeTotal(q, reasons, row.reason, live);
    Seqs.SumPermuted(CountIf(row.reason), result.events, InScope(q, reasons, live));
    WrapFits(ReasonTotal(result.events, row.reason));
  }

  lemma {:induction false} CollectedEvents(q: Query, reasons: seq<string>, live: seq<NormalizedEvent>,
                                           fails: seq<bool>, result: ExecutionResult, evs: seq<seq<NormalizedEvent>>,
                                           rows: seq<seq<NamespaceSummary>>)
    requires AreTargets(reasons)
    requires Executed(TargetedSteps(q, reasons), fails, live, |reasons| + 1, result, evs, rows)
    ensures Collects(q, Answered(reasons, fails, |reasons|), live, result.events)
  {
    TargetsAnswered(q, reasons, live, fails, result, evs, rows);
    TargetedQueries(q, reasons, fails, live, evs, |reasons|);
    assert evs[..|reasons| + 1] == evs;
  }

  lemma {:induction false} TargetsAnswered(q: Query, reasons: seq<string>, live: seq<NormalizedEvent>,
                                           fails: seq<bool>, result: ExecutionResult, evs: seq<seq<NormalizedEvent>>,
                                           rows: seq<seq<NamespaceSummary>>)
    requires Executed(TargetedSteps(q, reasons), fails, live, |reasons| + 1, result, evs, rows)
    ensures AnswersTargets(q, reasons, fails, live, evs)
  {
    var steps := TargetedSteps(q, reasons);
    TargetedShape(q, reasons);
    assert StepAt(steps, fails, live, evs, rows, 0);
    StepGives(steps[0], fails[0], live, evs[0], rows[0]);
    forall i | 1 <= i < |evs|
      ensures AnswersReason(q, reasons[i - 1], fails[i], live, evs[i])
    {
      assert StepAt(steps, fails, live, evs, rows, i);
      TargetedAnswer(q, reasons[i - 1], fails[i], live, evs[i], rows[i]);
    }
  }

  lemma {:induction false} TargetedAnswer(q: Query, reason: string, failed: bool, live: seq<NormalizedEvent>,
                                          evs: seq<NormalizedEvent>, rows: seq<NamespaceSummary>)
    requires StepDone(RestartStep(q, reason), failed, live, evs, rows)
    ensures AnswersReason(q, reason, failed, live, evs)
  {
  }

  lemma {:induction false} ConcatEmpty<T>(parts: seq<seq<T>>)
    requires forall i :: 0 <= i < |parts| ==> parts[i] == []
    ensures Concat(parts) == []
  {
    if parts == [] {
    } else {
      ConcatEmpty(parts[..|parts|-1]);
    }
  }

  // ---- what every plan collects ----

  lemma {:induction false} ConcatSingle<T>(parts: seq<seq<T>>, k: nat)
    requires k < |parts| && forall i :: 0 <= i < |parts| && i != k ==> parts[i] == []
    ensures Concat(parts) == parts[k]
  {
    var n := |parts| - 1;
    if k == n {
      ConcatEmpty(parts[..n]);
    } else {
      ConcatSingle(parts[..n], k);
    }
  }

  /** A query for a list of events: an acceptable answer, or nothing if it failed. */
  ghost predicate ListsExactly(f: Filter, failed: bool, live: seq<NormalizedEvent>, evs: seq<NormalizedEvent>) {
    if failed then evs == [] else Answers(evs, f, live)
  }

  /** A query for an object: all its events in the namespace, newest first, or nothing if it failed. */
  ghost predicate AboutExactly(q: Query, failed: bool, live: seq<NormalizedEvent>, evs: seq<NormalizedEvent>) {
    if failed then evs == []
    else
      && NewestFirst(evs)
      && multiset(evs) ==
         multiset(EventsAbout(q.objectKind, q.objectName, Scan(ScopeFilter(q.namespace, ZERO_TIME), live)))
  }

  /** A query for a summary: one exact row for each reason in scope, or none if it failed. */
  ghost predicate SummarisesExactly(q: Query, failed: bool, live: seq<NormalizedEvent>, rows: seq<NamespaceSummary>) {
    if failed then rows == [] else SummaryExact(rows, Scan(ScopeFilter(q.namespace, q.since), live))
  }

  /** The plan for the query is about one object. */
  predicate AboutObject(q: Query) {
    q.intent == ExplainObjectIssue || (q.intent == Unknown && NamesObject(q))
  }

  /** Exactly what the query's plan collects from a store holding `live`, whichever steps fail. */
  ghost predicate Collected(q: Query, live: seq<NormalizedEvent>, fails: seq<bool>, result: ExecutionResult) {
    && OneForEachStep(q, fails)
    && result.stepErrors == FailedSteps(fails, |fails|)
    && if AboutObject(q) then
         AboutExactly(q, fails[0], live, result.events) && result.summaries == []
       else if q.intent == ExplainRestarts then
         CollectedFor(q, RESTART_REASONS, live, fails, result)
       else if q.intent == BuildTimeline then
         && ListsExactly(Filter(q.namespace, "", q.reason, q.since, q.limit), fails[0], live, result.events)
         && result.summaries == []
       else
         && ListsExactly(Filter(q.namespace, "", "", q.since, q.limit), fails[1], live, result.events)
         && SummarisesExactly(q, fails[0], live, result.summaries)
  }

  /** The query can be planned, and `fails` has an outcome for each step of its plan. */
  ghost predicate OneForEachStep(q: Query, fails: seq<bool>) {
    MakePlan(q).Plan? && |fails| == |MakePlan(q).steps|
  }

  lemma {:induction false} ObjectAnswered(q: Query, failed: bool, live: seq<NormalizedEvent>,
                                          evs: seq<NormalizedEvent>, rows: seq<NamespaceSummary>)
    requires StepDone(GetEventsForObject(q.namespace, q.objectKind, q.objectName), failed, live, evs, rows)
    ensures AboutExactly(q, failed, live, evs) && rows == []
  {
    if !failed {
      var f := ScopeFilter(q.namespace, ZERO_TIME);
      var about := (e: NormalizedEvent) => IsAbout(e, q.objectKind, q.objectName);
      var all :| Answers(all, f, live) && evs == EventsAbout(q.objectKind, q.objectName, all);
      assert evs == Seqs.Filter(about, all);
      Seqs.FilterPermuted(about, all, Scan(f, live));
      Seqs.FilterAscending(Age, about, all);
    }
  }

  predicate GivesEvents(c: Call) {
    c.ListEvents? || c.GetEventsForObject?
  }

  lemma {:induction false} StepGives(c: Call, failed: bool, live: seq<NormalizedEvent>, evs: seq<NormalizedEvent>,
                                     rows: seq<NamespaceSummary>)
    requires StepDone(c, failed, live, evs, rows)
    ensures !GivesEvents(c) ==> evs == []
    ensures !c.GetNamespaceSummary? ==> rows == []
  {
  }

  lemma {:induction false} StepsGive(steps: seq<Call>, fails: seq<bool>, live: seq<NormalizedEvent>,
                                     result: ExecutionResult, evs: seq<seq<NormalizedEvent>>,
                                     rows: seq<seq<NamespaceSummary>>)
    requires Executed(steps, fails, live, |steps|, result, evs, rows)
    ensures forall i :: 0 <= i < |evs| && !GivesEvents(steps[i]) ==> evs[i] == []
    ensures forall i :: 0 <= i < |rows| && !steps[i].GetNamespaceSummary? ==> rows[i] == []
  {
    forall i | 0 <= i < |steps|
      ensures !GivesEvents(steps[i]) ==> evs[i] == []
      ensures !steps[i].GetNamespaceSummary? ==> rows[i] == []
    {
      assert StepAt(steps, fails, live, evs, rows, i);
      StepGives(steps[i], fails[i], live, evs[i], rows[i]);
    }
  }

  /** When only step `k` gives events, they are the collected ones. */
  lemma {:induction false} EventsFromStep(steps: seq<Call>, fails: seq<bool>, live: seq<NormalizedEvent>,
                                          result: ExecutionResult, k: nat)
    returns (own: seq<NamespaceSummary>)
    requires IsExecution(steps, fails, live, result) && k < |steps|
    requires forall i :: 0 <= i < |steps| && i != k ==> !GivesEvents(steps[i])
    ensures |fails| == |steps| && StepDone(steps[k], fails[k], live, result.events, own)
  {
    var evs, rows :| Executed(steps, fails, live, |steps|, result, evs, rows);
    StepsGive(steps, fails, live, result, evs, rows);
    ConcatSingle(evs, k);
    own := rows[k];
    assert StepAt(steps, fails, live, evs, rows, k);
  }

  /** When only step `k` gives a summary, it is the collected one. */
  lemma {:induction false} RowsFromStep(steps: seq<Call>, fails: seq<bool>, live: seq<NormalizedEvent>,
                                        result: ExecutionResult, k: nat)
    returns (own: seq<NormalizedEvent>)
    requires IsExecution(steps, fails, live, result) && k < |steps|
    requires forall i :: 0 <= i < |steps| && i != k ==> !steps[i].GetNamespaceSummary?
    ensures |fails| == |steps| && StepDone(steps[k], fails[k], live, own, result.summaries)
    ensures result.stepErrors == FailedSteps(fails, |fails|)
  {
    var evs, rows :| Executed(steps, fails, live, |steps|, result, evs, rows);
    StepsGive(steps, fails, live, result, evs, rows);
    ConcatSingle(rows, k);
    own := evs[k];
    assert StepAt(steps, fails, live, evs, rows, k);
  }

  /** When only the first step gives a summary, it is the collected one. */
  lemma {:induction false} FirstSummarises(steps: seq<Call>, q: Query, fails: seq<bool>, live: seq<NormalizedEvent>,
                                           result: ExecutionResult)
    requires steps != [] && steps[0] == GetNamespaceSummary(q.namespace, q.since)
    requires forall i :: 0 < i < |steps| ==> !steps[i].GetNamespaceSummary?
    requires IsExecution(steps, fails, live, result)
    ensures |fails| == |steps| && SummarisesExactly(q, fails[0], live, result.summaries)
    ensures result.stepErrors == FailedSteps(fails, |fails|)
  {
    var evs := RowsFromStep(steps, fails, live, result, 0);
    SummaryAnswered(q, fails[0], live, evs, result.summaries);
  }

  lemma {:induction false} SummaryAnswered(q: Query, failed: bool, live: seq<NormalizedEvent>,
                                           evs: seq<NormalizedEvent>, rows: seq<NamespaceSummary>)
    requires StepDone(GetNamespaceSummary(q.namespace, q.since), failed, live, evs, rows)
    ensures SummarisesExactly(q, failed, live, rows)
  {
  }

  lemma {:induction false} ObjectPlanCollects(q: Query, live: seq<NormalizedEvent>, fails: seq<bool>,
                                              result: ExecutionResult)
    requires IsExecution(ObjectIssue(q), fails, live, result)
    ensures |fails| == 3 && AboutExactly(q, fails[0], live, result.events) && result.summaries == []
    ensures result.stepErrors == FailedSteps(fails, |fails|)
  {
    var steps := ObjectIssue(q);
    var rows := EventsFromStep(steps, fails, live, result, 0);
    ObjectAnswered(q, fails[0], live, result.events, rows);
    var evs := RowsFromStep(steps, fails, live, result, 0);
    StepGives(steps[0], fails[0], live, evs, result.summaries);
  }

  lemma {:induction false} TimelinePlanCollects(c: Call, live: seq<NormalizedEvent>, fails: seq<bool>,
                                                result: ExecutionResult)
    requires c.ListEvents? && IsExecution([c], fails, live, result)
    ensures |fails| == 1 && ListsExactly(ListFilter(c), fails[0], live, result.events) && result.summaries == []
    ensures result.stepErrors == FailedSteps(fails, |fails|)
  {
    var rows := EventsFromStep([c], fails, live, result, 0);
    var evs := RowsFromStep([c], fails, live, result, 0);
    StepGives(c, fails[0], live, evs, result.summaries);
  }

  lemma {:induction false} OverviewPlanCollects(q: Query, live: seq<NormalizedEvent>, fails: seq<bool>,
                                                result: ExecutionResult)
    requires IsExecution(Overview(q), fails, live, result)
    ensures |fails| == 2 && SummarisesExactly(q, fails[0], live, result.summaries)
    ensures ListsExactly(Filter(q.namespace, "", "", q.since, q.limit), fails[1], live, result.events)
    ensures result.stepErrors == FailedSteps(fails, |fails|)
  {
    var _ := EventsFromStep(Overview(q), fails, live, result, 1);
    FirstSummarises(Overview(q), q, fails, live, result);
  }

  /** Every plan collects exactly what its query asks for, as far as its steps succeed. */
  lemma {:induction false} PlanCollects(q: Query, live: seq<NormalizedEvent>, fails: seq<bool>, result: ExecutionResult)
    requires MakePlan(q).Plan? && IsExecution(MakePlan(q).steps, fails, live, result)
    ensures Collected(q, live, fails, result)
  {
    if AboutObject(q) {
      ObjectPlanCollects(q, live, fails, result);
    } else if q.intent == ExplainRestarts {
      RestartPlanCollects(q, live, fails, result);
    } else if q.intent == BuildTimeline {
      TimelinePlanCollects(ListEvents(q.namespace, q.reason, q.since, q.limit), live, fails, result);
    } else {
      OverviewPlanCollects(q, live, fails, result);
    }
  }

  // ---- the same, field by field ----

  ghost predicate InTime(q: Query, e: NormalizedEvent) {
    q.since == 0 || e.lastSeen >= q.since
  }

  /** The reasons a restart question is about, in the order of their queries. */
  ghost predicate AnsweredRestart(reason: string, fails: seq<bool>)
    requires |fails| == 6
  {
    || (reason == "BackOff" && !fails[1])
    || (reason == "OOMKilling" && !fails[2])
    || (reason == "Failed" && !fails[3])
    || (reason == "Unhealthy" && !fails[4])
    || (reason == "FailedMount" && !fails[5])
  }

  ghost predicate IsLimited(q: Query) {
    q.limit > 0 && (q.intent == BuildTimeline || q.intent == NamespaceOverview || q.intent == Unknown)
  }

  /** What the query asks of an event, as far as the step that would give it succeeded. */
  ghost predicate Asks(q: Query, fails: seq<bool>, e: NormalizedEvent)
    requires OneForEachStep(q, fails)
  {
    && (q.namespace == "" || e.namespace == q.namespace)
    && match q.intent
       case ExplainObjectIssue => !fails[0] && e.objectKind == q.objectKind && e.objectName == q.objectName
       case ExplainRestarts => InTime(q, e) && AnsweredRestart(e.reason, fails)
       case BuildTimeline => !fails[0] && InTime(q, e) && (q.reason == "" || e.reason == q.reason)
       case NamespaceOverview => !fails[1] && InTime(q, e)
       case Unknown =>
         if q.objectKind != "" && q.objectName != "" then
           !fails[0] && e.objectKind == q.objectKind && e.objectName == q.objectName
         else !fails[1] && InTime(q, e)
  }

  /** Only events asked for are collected, and all of them unless the query is limited. */
  ghost predicate MatchesAsked(q: Query, live: seq<NormalizedEvent>, fails: seq<bool>, evs: seq<NormalizedEvent>) {
    && OneForEachStep(q, fails)
    && (forall e :: e in evs ==> e in live && Asks(q, fails, e))
    && (!IsLimited(q) || AboutObject(q) ==> forall e :: e in live && Asks(q, fails, e) ==> e in evs)
  }

  lemma {:induction false} CollectedInFields(q: Query, live: seq<NormalizedEvent>, fails: seq<bool>,
                                             result: ExecutionResult)
    requires Collected(q, live, fails, result)
    ensures MatchesAsked(q, live, fails, result.events)
  {
    if AboutObject(q) {
      AboutAsked(q, live, fails, result.events);
    } else if q.intent == ExplainRestarts {
      RestartsAsked(q, live, fails, result.events);
    } else {
      ListAsked(q, live, fails, result.events);
    }
  }

  lemma {:induction false} AboutAsked(q: Query, live: seq<NormalizedEvent>, fails: seq<bool>, evs: seq<NormalizedEvent>)
    requires OneForEachStep(q, fails) && AboutObject(q) && AboutExactly(q, fails[0], live, evs)
    ensures MatchesAsked(q, live, fails, evs)
  {
    AboutInFields(q, fails[0], live, evs);
  }

  lemma {:induction false} RestartsAsked(q: Query, live: seq<NormalizedEvent>, fails: seq<bool>,
                                         evs: seq<NormalizedEvent>)
    requires OneForEachStep(q, fails) && q.intent == ExplainRestarts
    requires Collects(q, Answered(RESTART_REASONS, fails, |RESTART_REASONS|), live, evs)
    ensures MatchesAsked(q, live, fails, evs)
  {
    RestartsInFields(q, live, fails, evs);
  }

  lemma {:induction false} ListAsked(q: Query, live: seq<NormalizedEvent>, fails: seq<bool>, evs: seq<NormalizedEvent>)
    requires OneForEachStep(q, fails) && !AboutObject(q) && q.intent != ExplainRestarts
    requires if q.intent == BuildTimeline then
               ListsExactly(Filter(q.namespace, "", q.reason, q.since, q.limit), fails[0], live, evs)
             else ListsExactly(Filter(q.namespace, "", "", q.since, q.limit), fails[1], live, evs)
    ensures MatchesAsked(q, live, fails, evs)
  {
    if q.intent == BuildTimeline {
      ListInFields(Filter(q.namespace, "", q.reason, q.since, q.limit), fails[0], live, evs);
    } else {
      ListInFields(Filter(q.namespace, "", "", q.since, q.limit), fails[1], live, evs);
    }
  }

  lemma {:induction false} ListInFields(f: Filter, failed: bool, live: seq<NormalizedEvent>, evs: seq<NormalizedEvent>)
    requires ListsExactly(f, failed, live, evs)
    ensures forall e :: e in evs ==> !failed && Selects(f, e) && e in live
    ensures f.limit <= 0 && !failed ==> forall e :: Selects(f, e) && e in live ==> e in evs
  {
    if !failed {
      AnswersInFields(evs, f, live);
    }
  }

  lemma {:induction false} AboutInFields(q: Query, failed: bool, live: seq<NormalizedEvent>, evs: seq<NormalizedEvent>)
    requires AboutExactly(q, failed, live, evs)
    ensures forall e :: e in evs <==>
              && !failed && e in live && (q.namespace == "" || e.namespace == q.namespace)
              && e.objectKind == q.objectKind && e.objectName == q.objectName
  {
    if !failed {
      var f := ScopeFilter(q.namespace, ZERO_TIME);
      var about := (e: NormalizedEvent) => IsAbout(e, q.objectKind, q.objectName);
      var all := Scan(f, live);
      assert EventsAbout(q.objectKind, q.objectName, all) == Seqs.Filter(about, all);
      forall e
        ensures e in evs <==> e in live && Matches(f, e) && IsAbout(e, q.objectKind, q.objectName)
      {
        Seqs.SameMembers(evs, Seqs.Filter(about, all), e);
        Seqs.FilterMember(about, all, e);
        Seqs.FilterMember(Matching(f), live, e);
      }
    }
  }

  lemma {:induction false} RestartsInFields(q: Query, live: seq<NormalizedEvent>, fails: seq<bool>,
                                            evs: seq<NormalizedEvent>)
    requires |fails| == |RESTART_REASONS| + 1
    requires Collects(q, Answered(RESTART_REASONS, fails, |RESTART_REASONS|), live, evs)
    ensures forall e :: e in evs <==>
              && e in live && (q.namespace == "" || e.namespace == q.namespace) && InTime(q, e)
              && AnsweredRestart(e.reason, fails)
  {
    var reasons := Answered(RESTART_REASONS, fails, |RESTART_REASONS|);
    forall e
      ensures e in evs <==>
              e in live && Matches(ScopeFilter(q.namespace, q.since), e) && AnsweredRestart(e.reason, fails)
    {
      CollectsMember(q, reasons, live, evs, e);
      AnsweredRestarts(fails, e.reason);
    }
  }

  lemma {:induction false} CollectsMember(q: Query, reasons: seq<string>, live: seq<NormalizedEvent>,
                                          evs: seq<NormalizedEvent>, e: NormalizedEvent)
    requires Collects(q, reasons, live, evs)
    ensures e in evs <==> e in live && Matches(ScopeFilter(q.namespace, q.since), e) && e.reason in reasons
  {
    Seqs.SameMembers(evs, InScope(q, reasons, live), e);
    Seqs.FilterMember(Targeted(q, reasons), live, e);
  }

  lemma {:induction false} AnsweredRestarts(fails: seq<bool>, reason: string)
    requires |fails| == |RESTART_REASONS| + 1
    ensures |fails| == 6
    ensures reason in Answered(RESTART_REASONS, fails, |RESTART_REASONS|) <==> AnsweredRestart(reason, fails)
  {
    FiveRestartReasons();
    AnsweredMember(RESTART_REASONS, fails, |RESTART_REASONS|, reason);
    if AnsweredRestart(reason, fails) {
      var i := if reason == "BackOff" then 0 else if reason == "OOMKilling" then 1 else if reason == "Failed" then 2
               else if reason == "Unhealthy" then 3 else 4;
      assert RESTART_REASONS[i] == reason && !fails[i + 1];
    }
  }

  lemma {:induction false} FiveRestartReasons()
    ensures |RESTART_REASONS| == 5
    ensures RESTART_REASONS[0] == "BackOff" && RESTART_REASONS[1] == "OOMKilling" && RESTART_REASONS[2] == "Failed"
    ensures RESTART_REASONS[3] == "Unhealthy" && RESTART_REASONS[4] == "FailedMount"
  {
  }
}
