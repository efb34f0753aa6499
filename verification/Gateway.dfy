/**
  A question put to the coordinator: plan, find the cluster's agent through the registry,
  execute the plan against the agent's store, correlate. The agent's store is what its
  watcher made of the informer callbacks, so the answer is stated in terms of those.
 */
module Gateway {
  import opened Events
  import opened Episodes
  import opened EventStore
  import opened OwnerChains
  import opened Pipeline
  import opened Planning
  import opened Execution
  import opened Causality
  import opened Correlation
  import opened Timelines
  import opened Responses
  import opened ClusterRegistry
  import Seqs

  /** A query that cannot be planned, a cluster that cannot be reached, or an answer with what it was built from. */
  datatype Reply = BadRequest | BadGateway | Answer(result: ExecutionResult, timeline: Timeline, summary: Summary)

  /** Every call to an endpoint at which no agent listens fails. */
  function NothingAnswers(steps: nat): ExecutionResult {
    ExecutionResult([], [], seq(steps, i => i))
  }

  /** Nothing is collected, and each of `n` steps is reported as failed. */
  ghost predicate AllFailed(n: nat, result: ExecutionResult) {
    && result.events == [] && result.summaries == []
    && |result.stepErrors| == n && forall i :: 0 <= i < n ==> result.stepErrors[i] == i
  }

  /** What can be known of an agent: where every event it handled is, and what its store holds. */
  datatype Agent = Agent(accounts: Accounts, capacity: nat, log: seq<NormalizedEvent>)

  /** The agent at an endpoint, if one listens there. */
  ghost function Listening(agents: map<string, Watcher>, endpoint: string): Option<Agent>
    reads if endpoint in agents then {agents[endpoint], agents[endpoint].store} else {}
  {
    if endpoint in agents then
      Some(Agent(agents[endpoint].State(), agents[endpoint].store.maxSize, agents[endpoint].store.log))
    else None
  }

  /** What running the steps against an agent, or against nothing, can give. */
  ghost predicate Ran(agent: Option<Agent>, steps: seq<Call>, fails: seq<bool>, result: ExecutionResult) {
    if agent.Some? then IsExecution(steps, fails, ListReplay(agent.value.capacity, agent.value.log), result)
    else AllFailed(|fails|, result)
  }

  method RunSteps(agents: map<string, Watcher>, endpoint: string, steps: seq<Call>, fails: seq<bool>)
    returns (result: ExecutionResult)
    requires |fails| == |steps|
    requires endpoint in agents ==> agents[endpoint].store.Valid()
    ensures Ran(old(Listening(agents, endpoint)), steps, fails, result)
  {
    if endpoint !in agents {
      return NothingAnswers(|steps|);
    }
    var store := agents[endpoint].store;
    store.RefinesList();
    result := Execute(store, steps, fails);
  }

  /** The agent at the endpoint registered for a cluster, if there is one, is in good order. */
  ghost predicate Sound(registry: Registry, agents: map<string, Watcher>, name: string)
    reads registry, agents.Values, set w | w in agents.Values :: w.store, set w | w in agents.Values :: w.store.order
  {
    name in registry.entries && registry.entries[name].grpcEndpoint in agents ==>
      agents[registry.entries[name].grpcEndpoint].Fed() && agents[registry.entries[name].grpcEndpoint].store.Valid()
  }

  /** A watcher that has not been touched is as valid as it was. */
  twostate lemma StillValid(w: Watcher)
    requires old(w.store.Valid()) && unchanged(w) && unchanged(w.store) && unchanged(w.store.order)
    ensures w.store.Valid() && w.State() == old(w.State()) && w.store.log == old(w.store.log)
  {
  }

  /** The endpoint that the cluster's cached or newly dialled connection leads to: the one now registered. */
  method Connect(registry: Registry, name: string, dialOk: bool) returns (endpoint: Option<string>)
    requires registry.Valid() && Current(registry.conns, registry.entries)
    modifies registry`conns, registry`dials, registry`dialled
    ensures registry.Valid() && Current(registry.conns, registry.entries)
    ensures endpoint.None? <==> name !in old(registry.conns) && !(name in registry.entries && dialOk)
    ensures endpoint.Some? ==> name in registry.entries && endpoint.value == registry.entries[name].grpcEndpoint
  {
    var client := registry.Client(name, dialOk);
    endpoint := if client.None? then None else Some(client.value.endpoint);
  }

  /**
    Runs the plan against the agent at the endpoint now registered for its cluster; without a
    connection, not at all.
   */
  method ExecutePlan(registry: Registry, agents: map<string, Watcher>, plan: Plan, dialOk: bool, fails: seq<bool>)
    returns (result: Option<ExecutionResult>)
    requires plan.Plan? && |fails| == |plan.steps|
    requires registry.Valid() && Current(registry.conns, registry.entries)
    requires Sound(registry, agents, plan.clusterName)
    modifies registry`conns, registry`dials, registry`dialled
    ensures registry.Valid() && Current(registry.conns, registry.entries)
    ensures result.None? <==>
              plan.clusterName !in old(registry.conns) && !(plan.clusterName in registry.entries && dialOk)
    ensures result.Some? ==>
              && plan.clusterName in old(registry.entries)
              && Ran(old(Listening(agents, registry.entries[plan.clusterName].grpcEndpoint)), plan.steps, fails,
                     result.value)
  {
    var endpoint := Connect(registry, plan.clusterName, dialOk);
    if endpoint.None? {
      return None;
    }
    if endpoint.value in agents {
      StillValid(agents[endpoint.value]);
    }
    var r := RunSteps(agents, endpoint.value, plan.steps, fails);
    return Some(r);
  }

  /** Its accounts balance, and what its store was given is the enriched additions. */
  ghost predicate Consistent(agent: Agent) {
    Balanced(agent.accounts) && AllEnriched(agent.accounts.clusters, agent.accounts.added, agent.log)
  }

  /**
    The collected events are exactly what the query asks of the bounded list of what a watcher
    with accounts `s` has added: the first of the accepted events, in handling order, each
    enriched against the cluster as it then was.
   */
  ghost predicate CollectedFrom(s: Accounts, capacity: nat, q: Query, fails: seq<bool>, result: ExecutionResult)
  {
    && Balanced(s)
    && exists stored ::
      AllEnriched(s.clusters, s.added, stored) && Collected(q, ListReplay(capacity, stored), fails, result)
  }

  /** Where no agent listens, nothing is collected. */
  ghost predicate Reports(agent: Option<Agent>, q: Query, fails: seq<bool>, result: ExecutionResult)
  {
    if agent.Some? then CollectedFrom(agent.value.accounts, agent.value.capacity, q, fails, result)
    else AllFailed(|fails|, result)
  }

  lemma {:induction false} RunReports(agent: Option<Agent>, q: Query, fails: seq<bool>, result: ExecutionResult)
    requires OneForEachStep(q, fails) && (agent.Some? ==> Consistent(agent.value))
    requires Ran(agent, MakePlan(q).steps, fails, result)
    ensures Reports(agent, q, fails, result)
  {
    if agent.Some? {
      PlanCollects(q, ListReplay(agent.value.capacity, agent.value.log), fails, result);
    }
  }

  ghost predicate HasTrace(tl: Timeline, ce: CorrelatedEvent) {
    exists t :: IsTrace(KNOWN_CAUSES, t, tl.events) && t[0] == ce && |t| - 1 <= 7
  }

  /**
    The timeline holds exactly `evs` in time order, each traced to a root cause in at most seven
    hops, and the summary reports on them: never that there is no root cause.
   */
  ghost predicate Explains(tl: Timeline, summary: Summary, evs: seq<NormalizedEvent>) {
    && multiset(Seqs.Map(Plain, tl.events)) == multiset(evs)
    && Seqs.Ascending(CorrelatedAt, tl.events)
    && (forall ce :: ce in tl.events ==> HasTrace(tl, ce))
    && SummaryOf(summary, tl)
    && (if evs == [] then summary.NoEvents? else summary.Report? && summary.downstream == |EffectsOf(tl.events)|)
  }

  lemma {:induction false} RunExplains(idx: CausedBy, evs: seq<NormalizedEvent>, tl: Timeline, summary: Summary)
    requires IsInverse(idx, CAUSAL_EDGES) && IsRun(idx, evs, tl) && SummaryOf(summary, tl)
    ensures Explains(tl, summary, evs)
  {
    CorrelationConserves(idx, evs, tl);
    SummaryOfRun(idx, evs, tl, summary);
    forall ce | ce in tl.events
      ensures HasTrace(tl, ce)
    {
      KnownCausalTraces(idx, evs, tl, ce);
    }
  }

  method Explain(idx: CausedBy, result: ExecutionResult) returns (reply: Reply)
    requires IsInverse(idx, CAUSAL_EDGES)
    ensures reply.Answer? && reply.result == result && Explains(reply.timeline, reply.summary, result.events)
  {
    var tl := Correlate(idx, result.events);
    var summary := Summarise(tl);
    RunExplains(idx, result.events, tl, summary);
    return Answer(result, tl, summary);
  }

  /** The rest of the way once a plan is made. */
  method AnswerPlan(registry: Registry, agents: map<string, Watcher>, idx: CausedBy, plan: Plan, dialOk: bool,
                    fails: seq<bool>, ghost q: Query)
    returns (reply: Reply)
    requires plan == MakePlan(q) && plan.Plan? && |fails| == |plan.steps| && IsInverse(idx, CAUSAL_EDGES)
    requires registry.Valid() && Current(registry.conns, registry.entries)
    requires Sound(registry, agents, plan.clusterName)
    modifies registry`conns, registry`dials, registry`dialled
    ensures registry.Valid() && Current(registry.conns, registry.entries)
    ensures !reply.BadRequest?
    ensures reply.BadGateway? <==>
              plan.clusterName !in old(registry.conns) && !(plan.clusterName in registry.entries && dialOk)
    ensures reply.Answer? ==>
              && Explains(reply.timeline, reply.summary, reply.result.events)
              && plan.clusterName in old(registry.entries)
              && Reports(old(Listening(agents, registry.entries[plan.clusterName].grpcEndpoint)), q, fails,
                         reply.result)
  {
    var result := ExecutePlan(registry, agents, plan, dialOk, fails);
    if result.None? {
      return BadGateway;
    }
    RunReports(old(Listening(agents, registry.entries[plan.clusterName].grpcEndpoint)), q, fails, result.value);
    reply := Explain(idx, result.value);
  }

  /** A question, from the query to the timeline and its summary. */
  method AnswerQuery(registry: Registry, agents: map<string, Watcher>, idx: CausedBy, q: Query, dialOk: bool,
                     fails: seq<bool>)
    returns (reply: Reply)
    requires (MakePlan(q).Plan? ==> |fails| == |MakePlan(q).steps|) && IsInverse(idx, CAUSAL_EDGES)
    requires registry.Valid() && Current(registry.conns, registry.entries)
    requires Sound(registry, agents, q.clusterName)
    modifies registry`conns, registry`dials, registry`dialled
    ensures registry.Valid() && Current(registry.conns, registry.entries)
    ensures reply.BadRequest? <==> MakePlan(q).Invalid?
    ensures reply.BadGateway? <==>
              && MakePlan(q).Plan?
              && q.clusterName !in old(registry.conns) && !(q.clusterName in registry.entries && dialOk)
    ensures reply.Answer? ==>
              && Explains(reply.timeline, reply.summary, reply.result.events)
              && q.clusterName in old(registry.entries)
              && Reports(old(Listening(agents, registry.entries[q.clusterName].grpcEndpoint)), q, fails, reply.result)
  {
    var plan := PlanQuery(q);
    if plan.Invalid? {
      return BadRequest;
    }
    reply := AnswerPlan(registry, agents, idx, plan, dialOk, fails, q);
  }

  /** Every event is asked for, and stems from a callback about the same object. */
  ghost predicate AllStem(agentName: string, actions: seq<Action>, q: Query, fails: seq<bool>,
                          evs: seq<NormalizedEvent>)
  {
    OneForEachStep(q, fails) && forall e :: e in evs ==> Asks(q, fails, e) && StemsFrom(e, agentName, actions)
  }

  lemma {:induction false} CollectedStems(agentName: string, actions: seq<Action>, capacity: nat, q: Query,
                                          fails: seq<bool>, result: ExecutionResult)
    requires CollectedFrom(Play(agentName, IDLE, actions), capacity, q, fails, result)
    ensures AllStem(agentName, actions, q, fails, result.events)
  {
    var s := Play(agentName, IDLE, actions);
    var stored :| AllEnriched(s.clusters, s.added, stored) && Collected(q, ListReplay(capacity, stored), fails, result);
    CollectedInFields(q, ListReplay(capacity, stored), fails, result);
    forall e | e in result.events
      ensures StemsFrom(e, agentName, actions)
    {
      StoredStems(agentName, actions, stored, capacity, e);
    }
  }

  /** An agent starts on an empty store, and `actions` happen. */
  method Watch(agentName: string, capacity: int, actions: seq<Action>) returns (watcher: Watcher)
    ensures fresh(watcher) && fresh(watcher.store) && fresh(watcher.store.order)
    ensures watcher.Fed() && watcher.store.Valid() && watcher.State() == Play(agentName, IDLE, actions)
    ensures watcher.store.maxSize == if capacity <= 0 then 10_000 else capacity
  {
    var store := new Store(capacity);
    watcher := new Watcher(agentName, store);
    watcher.Run(actions);
  }

  /**
    End to end: an agent starts, any interleaving of informer callbacks and pipeline steps
    happens, and a question is asked of a cluster. The answer is stated in terms of the
    interleaving alone.
   */
  method WatchThenAnswer(registry: Registry, agentName: string, endpoint: string, capacity: int, actions: seq<Action>,
                         q: Query, dialOk: bool, fails: seq<bool>)
    returns (reply: Reply)
    requires MakePlan(q).Plan? ==> |fails| == |MakePlan(q).steps|
    requires registry.Valid() && Current(registry.conns, registry.entries)
    modifies registry`conns, registry`dials, registry`dialled
    ensures reply.BadRequest? <==> MakePlan(q).Invalid?
    ensures reply.BadGateway? <==>
              && MakePlan(q).Plan?
              && q.clusterName !in old(registry.conns) && !(q.clusterName in registry.entries && dialOk)
    ensures reply.Answer? ==>
              && Explains(reply.timeline, reply.summary, reply.result.events)
              && q.clusterName in old(registry.entries)
              && if old(registry.entries)[q.clusterName].grpcEndpoint == endpoint then
                   && CollectedFrom(Play(agentName, IDLE, actions), if capacity <= 0 then 10_000 else capacity,
                                    q, fails, reply.result)
                   && AllStem(agentName, actions, q, fails, reply.result.events)
                 else AllFailed(|fails|, reply.result)
  {
    var idx := BuildCausedByIndex(CAUSAL_EDGES);
    var watcher := Watch(agentName, capacity, actions);
    reply := AnswerQuery(registry, map[endpoint := watcher], idx, q, dialOk, fails);
    if reply.Answer? && old(registry.entries)[q.clusterName].grpcEndpoint == endpoint {
      CollectedStems(agentName, actions, if capacity <= 0 then 10_000 else capacity, q, fails, reply.result);
    }
  }
}
