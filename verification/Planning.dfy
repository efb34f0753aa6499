/** The rule-based planner: a query becomes an ordered list of cluster-agent calls. */
module Planning {
  import opened Events

  datatype Intent = Unknown | NamespaceOverview | ExplainObjectIssue | ExplainRestarts | BuildTimeline

  datatype Query = Query(
    clusterName: string, namespace: string, objectKind: string, objectName: string,
    reason: string, since: Time, limit: int, intent: Intent)

  datatype Call =
    | ListEvents(namespace: string, reason: string, since: Time, limit: int)
    | GetEventsForObject(namespace: string, kind: string, name: string)
    | GetNamespaceSummary(namespace: string, since: Time)
    | ResolveChain(namespace: string, kind: string, name: string)
    | GetObjectSnapshot(namespace: string, kind: string, name: string)

  datatype Plan = Plan(clusterName: string, steps: seq<Call>) | Invalid

  const RESTART_REASONS: seq<string> := ["BackOff", "OOMKilling", "Failed", "Unhealthy", "FailedMount"]

  function Overview(q: Query): seq<Call> {
    [GetNamespaceSummary(q.namespace, q.since), ListEvents(q.namespace, "", q.since, q.limit)]
  }

  function ObjectIssue(q: Query): seq<Call> {
    [GetEventsForObject(q.namespace, q.objectKind, q.objectName),
     ResolveChain(q.namespace, q.objectKind, q.objectName),
     GetObjectSnapshot(q.namespace, q.objectKind, q.objectName)]
  }

  function RestartStep(q: Query, reason: string): Call {
    ListEvents(q.namespace, reason, q.since, 0)
  }

  /** Summary first, then one targeted query for each reason. */
  function TargetedSteps(q: Query, reasons: seq<string>): seq<Call> {
    [GetNamespaceSummary(q.namespace, q.since)]
    + seq(|reasons|, i requires 0 <= i < |reasons| => RestartStep(q, reasons[i]))
  }

  lemma TargetedShape(q: Query, reasons: seq<string>)
    ensures var steps := TargetedSteps(q, reasons);
            && |steps| == |reasons| + 1 && steps[0] == GetNamespaceSummary(q.namespace, q.since)
            && forall i :: 0 < i < |steps| ==> steps[i] == RestartStep(q, reasons[i - 1])
  {
  }

  function Restarts(q: Query): seq<Call> {
    TargetedSteps(q, RESTART_REASONS)
  }

  method PlanRestarts(q: Query) returns (steps: seq<Call>)
    ensures steps == Restarts(q)
  {
    steps := [GetNamespaceSummary(q.namespace, q.since)];
    for i := 0 to |RESTART_REASONS|
      invariant |steps| == i + 1 && steps[0] == GetNamespaceSummary(q.namespace, q.since)
      invariant forall j :: 0 <= j < i ==> steps[j + 1] == RestartStep(q, RESTART_REASONS[j])
    {
      steps := steps + [RestartStep(q, RESTART_REASONS[i])];
    }
  }

  predicate NamesObject(q: Query) {
    q.objectKind != "" && q.objectName != ""
  }

  /** A query becomes a plan for its cluster, or is refused for want of a cluster, an object or a namespace. */
  function MakePlan(q: Query): (plan: Plan)
    ensures plan.Invalid? <==>
            || q.clusterName == ""
            || (q.intent == ExplainObjectIssue && (q.objectKind == "" || q.objectName == ""))
            || (q.intent == Unknown && (q.objectKind == "" || q.objectName == "") && q.namespace == "")
    ensures plan.Plan? ==> plan.clusterName == q.clusterName && plan.steps != []
  {
    if q.clusterName == "" then Invalid
    else match q.intent
      case NamespaceOverview => Plan(q.clusterName, Overview(q))
      case ExplainObjectIssue => if NamesObject(q) then Plan(q.clusterName, ObjectIssue(q)) else Invalid
      case ExplainRestarts => Plan(q.clusterName, Restarts(q))
      case BuildTimeline => Plan(q.clusterName, [ListEvents(q.namespace, q.reason, q.since, q.limit)])
      case Unknown =>
        if NamesObject(q) then Plan(q.clusterName, ObjectIssue(q))
        else if q.namespace != "" then Plan(q.clusterName, Overview(q))
        else Invalid
  }

  /** A plan about an object fetches its events, then its owners, then its state. */
  lemma ObjectPlanInFields(q: Query)
    requires q.clusterName != "" && q.objectKind != "" && q.objectName != ""
             && q.intent in {ExplainObjectIssue, Unknown}
    ensures MakePlan(q).Plan? && |MakePlan(q).steps| == 3
    ensures var steps := MakePlan(q).steps;
            && steps[0].GetEventsForObject? && steps[1].ResolveChain? && steps[2].GetObjectSnapshot?
            && forall i :: 0 <= i < 3 ==>
                 steps[i].namespace == q.namespace && steps[i].kind == q.objectKind && steps[i].name == q.objectName
  {
  }

  /** The planner proper, which appends the restart steps one by one. */
  method PlanQuery(q: Query) returns (plan: Plan)
    ensures plan == MakePlan(q)
  {
    plan := MakePlan(q);
    if plan.Plan? && q.intent == ExplainRestarts {
      var steps := PlanRestarts(q);
      plan := Plan(q.clusterName, steps);
    }
  }
}
