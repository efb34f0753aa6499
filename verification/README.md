# mcp-k8s: a verified model

mcp-k8s watches Kubernetes events, stores them in a bounded in-memory store, and answers
questions about them with a correlated timeline. This project models that data path and
proves what it promises, for every input, every run and every choice that Go's map
iteration and unstable sorts leave open. `dafny verify dfyconfig.toml` checks everything.

| file | models |
|---|---|
| `Events.dfy`, `Seqs.dfy` | event values, 32-bit counts, sequence facts, `sort.Slice` as "any sorted permutation" |
| `Episodes.dfy` | what the store should be: a list of burst episodes, with the events merged into each |
| `Windows.dfy` | ring slots, capped burst histories, reverse map and inverted indexes as exact functions of a sliding window |
| `Store.dfy`, `Scans.dfy`, `Limits.dfy`, `Summaries.dfy` | the store itself, and its queries against a linear scan |
| `Causality.dfy`, `Correlation.dfy`, `Timelines.dfy`, `RootFlags.dfy` | causal edges, correlation, causal traces, order independence |
| `OwnerChains.dfy`, `GroupRoots.dfy` | the bounded walk up ownerReferences, and what a group id says about its root |
| `Messages.dfy`, `Pipeline.dfy` | normalisation, and the dropping pipeline that feeds the store |
| `Deduplicator.dfy` | the accumulating deduplicator |
| `Registry.dfy` | registry entries, connection cache and file |
| `Planning.dfy`, `Execution.dfy`, `Responses.dfy` | planner, executor, summary |
| `Gateway.dfy` | a question end to end: from informer callbacks through registry and agent to the timeline and its summary |

## How to read it

- The store keeps two ghost values: `log`, every event ever added, and `hist`, every
  episode ever opened. `Store.Valid()` ties every field to them, and every method keeps it,
  so a statement that requires `Valid()` holds after every sequence of calls.
- A time is a number of nanoseconds with 0 for Go's zero time; negative values are allowed.
  Ids are unbounded (fewer than 2^64 insertions). Counts are `int32`; sums wrap.
- A pipeline run is any finite interleaving of steps, so cancellation at any moment is covered.
- Map iteration is `:|`. A sort is known to its callers only as a sorted permutation.
- Locks are held over whole operations, so operations are atomic steps. I/O results (read,
  dial and save outcomes, failing steps, the cluster's objects) are parameters.
- Where code and specification share a function, a second statement over the records' own
  fields and constants (`...InFields` and the like) says what it decides.
- The causal theorems are proved for any edge table whose levels climb (`EdgeTable.Climbs`)
  and then for the shipped one.

## Five promises that hold only under a condition

- Root-cause flags depend on how ties in last-seen are broken. They are the same in all
  runs if and only if every event tied with one of its causes also has a strictly earlier
  cause (`RootFlags.FlagsDeterminedIff`); distinct times are a special case, and
  `RootFlags.TieSplitsFlags` is a pair of events for which it fails.
- Two objects whose owner walks pass through a common object are not always in one group.
  If no lookup fails, they are if and only if the one that starts deeper has a root within
  ten lookups, or its cut-off lies on a cycle of owners whose length divides the difference
  in depth; at equal depths the latter always holds. A failed walk leaves the event in the
  group of its own object. `OwnerChains.GroupsAgreeIff` states all cases over the object
  graph, so they can be checked before any walk; `OwnerChains.DepthBoundSplits` is a pod
  eleven levels deep and its owner, in different groups.
- Conversely, events of one group do not always have one root. Where the root has no UID the
  group is Kind/Name without the namespace, though a timeline may mix namespaces
  (pkg/correlation/correlator.go:16). One group means one root if and only if the root has a
  UID, which is when its kind is fetched, or the namespaces agree
  (`GroupRoots.GroupMeansRootIff`, `GroupRoots.UidIffFetched`); `GroupRoots.RolloutsMerge` is
  two Rollouts in two namespaces, in one group.
- A limited query may have several answers. All of them hold the same events if and only if
  the limit does not fall inside a group of unequal events tied in last-seen
  (`Limits.DeterminedIff`); `Limits.TwoAnswers` gives two that differ when it does.
- The source's README (README.md:28) promises up to 5 burst episodes for each key. The code
  caps only the history slice; older episodes stay in the ring and in query results until
  evicted. Every run keeps at most five episodes of each key if and only if the whole store
  holds at most five (`Episodes.EpisodesPerKeyIff`, for any bound);
  `Episodes.SixEpisodesOfOneKey` is a run that keeps six.

## Model

| member | source | states |
|---|---|---|
| `EventStore.Store.constructor` | pkg/store/store.go:55-69 | a new store is valid and empty, with capacity 10000 for a non-positive size |
| `EventStore.Store.Add` | pkg/store/store.go:78-137 | one addition is one step of the bounded-list model, whatever the state; it extends the latest live episode of the same known object and reason exactly when the count has not fallen and first-seen is unset or within five minutes of its last-seen, else it opens a new one; every structure stays exact |
| `EventStore.Store.RefinesList` | pkg/store/store.go:78-137 | after any run the stored events are the bounded list folded over everything added |
| `EventStore.ApplyUpdate` | pkg/store/store.go:87-98 | the field-by-field in-place update is the merge that the fold theorem is about |
| `EventStore.HistoryFindsTarget` | pkg/store/store.go:82-101 | the last id of a key's history is always stored, and it is the episode the list model updates |
| `EventStore.Store.SlidingWindow` | pkg/store/store.go:104-118 | live ids are exactly the last capacity-many, each at slot id mod capacity; head and full follow nextID |
| `EventStore.Store.Len` | pkg/store/store.go:153-157 | the length is min(nextID, capacity) |
| `EventStore.Store.BurstHistory` | pkg/store/store.go:120-132 | a key's history is the newest min(5, n) of its n live ids, increasing; the reverse map is its exact inverse |
| `EventStore.Store.Evict` | pkg/store/store.go:159-186 | evicting the oldest id leaves every structure exact for the shorter window; an unknown id changes nothing |
| `Windows.OldestIsFront` | pkg/store/store.go:165-180 | eviction only ever removes the front of a history |
| `Windows.AddToIndexExact` | pkg/store/store.go:188-196 | an inverted index stays exact when an event is inserted |
| `Windows.RemoveFromIndexExact` | pkg/store/store.go:198-205 | an inverted index stays exact, with no empty sets, when the oldest event is evicted |
| `Windows.HistoriesPush` | pkg/store/store.go:120-131 | append-and-cap keeps every history the newest five |
| `Episodes.ReplayIsListReplay` | pkg/store/store.go:78-137 | the window of the full episode history is the bounded list, for every run |
| `Episodes.ReplayedEpisodesAreFolds` | pkg/store/store.go:86-99 | each stored episode has the latest and largest count, extreme times, the message of the first event reaching the maximum, and the last non-empty owner chain of exactly the events merged into it |
| `Episodes.ReplayConserves` | pkg/store/store.go:78-137 | every added event is recorded in the episodes exactly as often as it was added |
| `Episodes.EpisodesAreSeparated` | pkg/store/store.go:142-150 | consecutive live episodes of a key are separated by a count reset or a gap of more than five minutes |
| `Episodes.MergedEventsAreNear` | pkg/store/store.go:142-150 | what is merged belongs together: same known object and reason, no smaller count than any before, first-seen unset or within five minutes of the last-seen of one before |
| `Episodes.AddExtendsIff` | pkg/store/store.go:82-101 | in every run, an added event extends an episode exactly when it continues the latest live one of its object and reason |
| `Episodes.StoredOriginates` | pkg/store/store.go:86-110 | in every run, a stored event's cluster, namespace, object and reason are those of one added event |
| `Episodes.EpisodesPerKeyIff` | pkg/store/store.go:120-132 | a bound on the stored episodes of each object and reason holds in every run if and only if the capacity is within it |
| `Episodes.OccurrencesAreKept` | pkg/store/store.go:78-137 | as many bursts of one key, each over five minutes after the last, as there is room for are all kept as separate episodes |
| `Episodes.SixEpisodesOfOneKey` | pkg/store/store.go:123-129 | six bursts of one key leave six stored episodes in any store of six or more |
| `Episodes.OlderEpisodesAreFrozen` | pkg/store/store.go:84-101 | once a newer episode of its key exists an episode never changes again |
| `EventStore.Store.CandidateIds` | pkg/store/store.go:236-258 | index lookup and intersection give exactly the stored ids matching every set field |
| `EventStore.Intersect` | pkg/store/store.go:260-285 | walking the smallest set keeps exactly the ids in all sets; no sets give the empty set |
| `Scans.SortByLastSeenDesc` | pkg/store/store.go:287-293 | the in-place swaps compute the stable insertion sort |
| `Seqs.SortedOrders` | pkg/store/store.go:287-293 | that sort is a newest-first permutation |
| `EventStore.Store.Query` | pkg/store/store.go:208-232 | newest first, each event stored and with every set filter field and a last-seen not before since; all of those without a limit; with one, as many as fit and no omitted match newer than a returned one |
| `Scans.AnswersInFields` | pkg/store/store.go:208-232 | the same field by field, for any answer |
| `Limits.DeterminedIff` | pkg/store/store.go:208-232 | a query has one answer up to order, whatever the map iteration order, if and only if its limit does not split a tie of unequal events |
| `Limits.TwoAnswers` | pkg/store/store.go:225-231 | where it does, two answers with different events |
| `EventStore.Store.SummarizeNamespace` | pkg/store/store.go:305-342 | one row for each reason in scope, with the wrapped total (also as an independent front-to-back sum), distinct object names and latest time of exactly its events |
| `Summaries.RowsInFields` | pkg/store/store.go:305-342 | every row field by field over everything stored |
| `Scans.TotalInIs` | pkg/store/store.go:316-325 | the total of a row is the sum, front to back, of the counts of the namespace's recent events of its reason |
| `Causality.BuildCausedByIndex` | pkg/correlation/patterns.go:44-51 | in any build order the index is the exact inverse of the edge table |
| `Causality.KnownCause` | pkg/correlation/patterns.go:55-62 | the first listed predecessor that has been seen, or none when none has |
| `Causality.FirstSeenIsCause` | pkg/correlation/patterns.go:53-62 | a cause is found exactly when some known cause has been seen, and it is one of those |
| `Causality.LongestPath` | pkg/correlation/patterns.go:5-37 | the shipped edge graph has no path of more than seven edges, and one of seven |
| `Causality.KnownEdges` | pkg/correlation/patterns.go:5-37 | the shipped edges, pair by pair |
| `Correlation.GroupByWorkload` | pkg/correlation/correlator.go:61-68 | groups are exactly the events of each group id, in order |
| `Correlation.AnnotateGroup` | pkg/correlation/correlator.go:89-105 | the running set of seen reasons annotates each event with its predecessors in the group |
| `Correlation.PassByGroup` | pkg/correlation/correlator.go:31-38 | annotating groups separately equals one pass over all events |
| `Correlation.Correlate` | pkg/correlation/correlator.go:18-57 | grouping, annotating, flattening in any order and sorting is a run of the single-pass model |
| `Timelines.FlagAt` | pkg/correlation/correlator.go:93-103 | an event is a root cause exactly when nothing before it in its group can cause it |
| `Timelines.CausalTraces` | pkg/correlation/correlator.go:18-57 | every event has a trace of known edges within its group, going back in time, to a root cause |
| `Timelines.KnownCausalTraces` | pkg/correlation/patterns.go:5-62 | with the shipped table the trace has at most seven hops |
| `Timelines.CorrelationConserves` | pkg/correlation/correlator.go:40-56 | without annotations the timeline is a permutation of the input, in order of last-seen; the root causes are exactly its flagged events, in the same order |
| `Timelines.GroupsHaveRoots` | pkg/correlation/correlator.go:49-56 | every group has a listed root cause |
| `RootFlags.FlagsDeterminedIff` | pkg/correlation/correlator.go:25-47 | root-cause flags are independent of input order, sort choices and index order if and only if ties are harmless |
| `RootFlags.KnownFlagsDeterminedIff` | pkg/correlation/patterns.go:44-62 | the same for the shipped table |
| `RootFlags.DistinctTimesDetermineFlags` | pkg/correlation/correlator.go:25-29 | distinct last-seen times determine the flags |
| `RootFlags.TieSplitsFlags` | pkg/correlation/correlator.go:27-29 | a tied FailedMount and BackOff of one pod can be flagged either way |
| `Responses.Summarise` | internal/app/coordinator/response.go:271-299 | which of the three answers is given, and the figures of the report |
| `Responses.AffectedObjects` | internal/app/coordinator/response.go:164-175 | the Kind/Name of every event, each once |
| `Responses.DistinctReasonsExact` | internal/app/coordinator/response.go:279-286 | the listed reasons are exactly those of the root causes, each once |
| `Responses.DistinctReasonsGrow` | internal/app/coordinator/response.go:279-286 | they are listed in order of first appearance |
| `Responses.SummaryOfRun` | internal/app/coordinator/response.go:271-299 | on a correlated timeline "no clear root cause" is never answered; downstream counts exactly the events with a cause |
| `OwnerChains.ResolveOwnerChain` | pkg/enrichment/ownerchain.go:16-51 | the chain is the longest found prefix of iterating the owner choice; field by field it starts at the object, goes to the first controlling owner or else the first, records the fetched UIDs, has at most ten entries, fails only at an object that cannot be fetched and ends early only where there is no owner |
| `OwnerChains.FollowOwner` | pkg/enrichment/ownerchain.go:37-44 | the first owner with controller set to true, or the first owner when none has |
| `OwnerChains.WalksInFields` | pkg/enrichment/ownerchain.go:16-120 | every walk field by field, over the eight kinds that are fetched |
| `OwnerChains.EndsAtRootIff` | pkg/enrichment/ownerchain.go:16-51 | a walk ends at a root exactly when one is within ten lookups |
| `OwnerChains.FailsIff` | pkg/enrichment/ownerchain.go:22-25 | a walk fails exactly when a failing lookup is within ten |
| `OwnerChains.WalksAreConfluent` | pkg/enrichment/ownerchain.go:16-51 | walks that share an object and end at roots end at the same entry |
| `OwnerChains.SharedOwnerSharesGroup` | pkg/correlation/correlator.go:72-84 | and their events get the same group id |
| `OwnerChains.LastEntriesAgreeIff` | pkg/enrichment/ownerchain.go:16-51 | two walks through one object end at the same entry if and only if the deeper one reaches a root or is cut off on a fitting cycle |
| `OwnerChains.GroupsAgreeIff` | pkg/correlation/correlator.go:72-84 | exactly when events of two objects with a common owner are in one group, for walks that reach a root, are cut off or fail |
| `OwnerChains.EqualDepthSharesGroup` | pkg/correlation/correlator.go:72-84 | at equal depths below a common object, only failing lookups can part two events |
| `OwnerChains.EnrichmentKeepsRootGroup` | pkg/correlation/correlator.go:72-84 | an ownerless object's event is in one group whether or not enrichment fails if and only if it names the fetched UID (or spells it Kind/Name) |
| `OwnerChains.CycleIsCutOff` | pkg/enrichment/ownerchain.go:11-21 | on a cycle of owners the walk stops without error after ten entries |
| `OwnerChains.DepthBoundSplits` | pkg/enrichment/ownerchain.go:11-21 | a pod eleven levels deep and its own owner are enriched into different groups |
| `GroupRoots.GroupMeansRootIff` | pkg/correlation/correlator.go:72-84 | events of one group have one deciding object if and only if it has a UID or the namespaces agree |
| `GroupRoots.UidIffFetched` | pkg/enrichment/ownerchain.go:53-120 | after a walk that did not fail, the deciding object has a UID exactly when its kind is one of those fetched |
| `GroupRoots.UnfetchedKindsMerge` | pkg/enrichment/ownerchain.go:116-118 | objects of one unfetched kind and name share a group across namespaces, and are not the same object |
| `GroupRoots.RolloutsMerge` | pkg/correlation/correlator.go:72-84 | two Rollouts in two namespaces, with two UIDs, get one group against any cluster |
| `GroupRoots.NamesAreUnambiguous` | pkg/correlation/correlator.go:72-84 | unique UIDs and slashless kinds suffice for distinct objects of a namespace to have distinct labels |
| `Messages.NormalizeKeepsWords` | pkg/events/normalize.go:44-48 | normalising keeps exactly the words, in order |
| `Messages.NormalizeIsCanonical` | pkg/events/normalize.go:44-48 | two messages normalise alike exactly when they have the same words |
| `Messages.NormalizeIsIdempotent` | pkg/events/normalize.go:44-48 | normalising twice changes nothing more |
| `Messages.NormalizeIsSingleSpaced` | pkg/events/normalize.go:44-48 | a normal form is trimmed, with one blank between words and no other white space |
| `Messages.FieldsAtSpace` | pkg/events/normalize.go:46 | white space, by its code points, separates words wherever it stands |
| `Messages.FieldsOfWord` | pkg/events/normalize.go:46 | and a run without white space is one word, which together determine the words of any text |
| `Messages.FieldsOfJoin` | pkg/events/normalize.go:46-47 | splitting a join of words gives the words back |
| `Messages.NormalizeFills` | pkg/events/normalize.go:11-41 | a normalised event names the cluster and the raw event's namespace, object, UID and reason; its count, its times (EventTime over LastTimestamp, and for a missing FirstTimestamp) and the same words |
| `Pipeline.Watcher.HandleObject` | internal/app/clusteragent/watcher.go:77-92 | an event is queued, in normal form, exactly when fewer than 512 are waiting, and else dropped; other objects change nothing |
| `Pipeline.DroppedIffFull` | internal/app/clusteragent/watcher.go:77-92 | in every run, an event is dropped exactly when 512 are waiting at its callback |
| `Pipeline.BurstFills` | internal/app/clusteragent/watcher.go:77-92 | of callbacks before the goroutine runs, the first 512 events wait |
| `Pipeline.StoredStems` | internal/app/clusteragent/watcher.go:77-121 | in every run, whatever the store holds is about the cluster, namespace, object and reason of the raw event of some callback |
| `Pipeline.Watcher.Process` | internal/app/clusteragent/watcher.go:101-118 | the event in flight is enriched, or left bare when resolution fails, and added |
| `Pipeline.Watcher.Run` | internal/app/clusteragent/watcher.go:96-121 | any interleaving of callbacks and pipeline steps follows the queue state machine and keeps the accounting |
| `Pipeline.NextBalanced` | internal/app/clusteragent/watcher.go:77-121 | every action keeps the queue within 512 and the accepted events equal to those added, in flight and queued, in that order |
| `Pipeline.DrainDelivers` | internal/app/clusteragent/watcher.go:96-121 | left alone, the goroutine delivers the whole queue in order |
| `Pipeline.Watcher.Conservation` | internal/app/clusteragent/watcher.go:77-121 | every handled event is exactly one of dropped, queued, in flight or added; additions follow handling order; the store is their fold |
| `Deduplication.Deduplicator.Merge` | pkg/events/dedup.go:24-51 | the index after each merge is the fold of everything merged |
| `Deduplication.MergedExact` | pkg/events/dedup.go:24-51 | one entry for each UID and reason that occurs, with the wrapped sum of counts and the extreme times of exactly its events |
| `Episodes.OfKeyMember` | pkg/events/dedup.go:24-27 | which are those with its UID and reason |
| `Deduplication.MergedCarries` | pkg/events/dedup.go:41-48 | an entry's message is that of the first event reaching its last-seen, its owner chain the first non-empty one |
| `Deduplication.MergeOrderIrrelevant` | pkg/events/dedup.go:24-51 | every permutation of the merges gives the same keys, counts and time spans |
| `Deduplication.Deduplicator.Snapshot` | pkg/events/dedup.go:66-74 | each entry once, and the counts add up to those merged, modulo 2^32 |
| `ClusterRegistry.Registry.Load` | internal/app/coordinator/registry.go:43-67 | a missing file is no error, an unreadable or unparsable one is and changes nothing, otherwise the last entry listed under a name wins; cached connections stay current exactly when none is loaded with another endpoint |
| `ClusterRegistry.Registry.Register` | internal/app/coordinator/registry.go:71-81 | replaces the entry, closes its connection, saves |
| `ClusterRegistry.Registry.Unregister` | internal/app/coordinator/registry.go:84-94 | removes the entry, closes its connection, saves |
| `ClusterRegistry.Registry.Client` | internal/app/coordinator/registry.go:110-132 | reuses the cached connection, else dials the registered endpoint, else fails without a trace |
| `ClusterRegistry.Registry.Run` | internal/app/coordinator/coordinator.go:25-29 | one load and any mix of operations give the folded entries and the last save, keep connections current and each opened one cached once or closed once, and leave the file as it was if no save succeeded |
| `ClusterRegistry.Registry.Perform` | internal/app/coordinator/registry.go:71-132 | the effect of any one operation on entries, connections, file and last save; a lookup touches no file |
| `ClusterRegistry.Restart` | internal/app/coordinator/registry.go:43-67 | after a run and a restart, loading gives the entries of the last successful save, or what the file listed before if there was none |
| `ClusterRegistry.RunLifetimes` | internal/app/coordinator/coordinator.go:25-29 | over any number of processes, with failing loads and saves, the file lists the fold of their last saves; no other file changes |
| `ClusterRegistry.RestartsAreInvisible` | internal/app/coordinator/registry.go:136-176 | if loads succeed and the last write of each process is saved, restarts change nothing: the file lists what one long run would give |
| `ClusterRegistry.ConservedClose` | internal/app/coordinator/registry.go:88-91 | closing moves a connection from cached to closed, exactly once |
| `ClusterRegistry.ConservedOpen` | internal/app/coordinator/registry.go:123-131 | a dialled connection is cached under one name only |
| `ClusterRegistry.WriteAtomically` | internal/app/coordinator/registry.go:146-175 | the file changes only if every step succeeds; no existing file is ever harmed |
| `ClusterRegistry.LoadRebuilds` | internal/app/coordinator/registry.go:55-64 | loading any ordering of a saved list rebuilds the same map |
| `ClusterRegistry.OverlayLast` | internal/app/coordinator/registry.go:60-64 | of several listed entries with one name the last is read, and names not listed keep theirs |
| `ClusterRegistry.Registry.RestartRestores` | internal/app/coordinator/registry.go:136-176 | after a restart the file gives back the entries of the last successful save |
| `Planning.MakePlan` | pkg/planner/planner.go:15-45 | exactly which queries are refused; any other gets a non-empty plan for its own cluster, and `Execution.PlanCollects` says what that plan collects |
| `Planning.ObjectPlanInFields` | pkg/planner/planner.go:60-86 | a plan about an object asks for its events, its owners and its state, in this order, under the query's own namespace, kind and name |
| `Planning.PlanRestarts` | pkg/planner/planner.go:88-106 | a summary step and one unlimited query for each of the five reasons |
| `Planning.PlanQuery` | pkg/planner/planner.go:15-45 | the planner with its loop gives that plan |
| `Execution.Execute` | internal/app/coordinator/executor.go:42-58 | each step contributes its own answer in order; exactly the failing ones are recorded and contribute nothing |
| `Execution.RunStep` | internal/app/coordinator/executor.go:60-93 | what each store-backed call contributes |
| `Execution.TargetedQueries` | pkg/planner/planner.go:97-104 | queries by distinct reasons collect exactly the events in scope whose reason was answered, each once |
| `Execution.RestartPlanCollects` | internal/app/coordinator/executor.go:42-93 | whichever steps fail, a restart plan collects the in-scope events of the answered reasons exactly once, and summary totals agree with collected counts exactly when they fit 32 bits |
| `Execution.PlanCollects` | pkg/planner/planner.go:49-130 | for every intent, exactly what the plan collects, as far as its steps succeed: an answer to the list query with the query's reason, time and limit; all events of the object, newest first; exact summary rows; the restart events |
| `Execution.CollectedInFields` | pkg/planner/planner.go:49-130 | field by field, only stored events the query asks for are collected, and all of them unless it is limited: of its namespace and time, and of its object, its reason, or an answered one of BackOff, OOMKilling, Failed, Unhealthy and FailedMount |
| `Gateway.ExecutePlan` | internal/app/coordinator/executor.go:42-58 | no connection, no execution; otherwise the plan runs against the agent at the endpoint now registered, or nothing is collected and every step fails if none listens there |
| `Gateway.RunReports` | internal/app/coordinator/gateway.go:91-97 | a plan run against an agent collects exactly what the query asks of the agent's bounded list of accepted, enriched events |
| `Gateway.RunExplains` | internal/app/coordinator/gateway.go:104-106 | the timeline holds exactly the collected events in time order, each traced to a root cause in at most seven hops, and the summary never says there is none |
| `Gateway.AnswerQuery` | internal/app/coordinator/gateway.go:74-106 | for any intent, when a question is refused, cannot reach its cluster, or is answered; the exact events of the answer and how they are explained |
| `Gateway.WatchThenAnswer` | internal/app/coordinator/gateway.go:91-106 | the same for any interleaving of callbacks and pipeline steps of an agent, in terms of that interleaving; every event of the answer is asked for and stems from a callback about the same object |

## Left out

- HTTP handlers, token check, JSON and gRPC transport, generated protobuf code: plumbing; proto conversion is taken as the identity.
- Execution.RunStep: does not model what owner-chain and snapshot calls append, because those result fields are outside the model; the planner never emits log or metrics calls.
- Execution.Execute: does not model the text of step errors or the `int32` narrowing of limits, which are single branches; the early return for an unregistered cluster is in `Gateway.ExecutePlan`.
- EventStore.Store.Evict: states only the cases of the oldest id and of an unknown one, because `Add` passes the oldest and no other; evicting from the middle of the ring would leave no window.
- The LLM client and prompts, object snapshots, configuration, deployment: no invariant beyond field copying.
- Which reason `CausedBy` names among several seen predecessors: map iteration order at start-up decides, so only that it is a seen predecessor is stated.
- Responses.Summarise: does not model the wording, only which answer is given and its figures.
- `Deduplicator.Get` and `Registry.List`: plain reads.
- Aliasing of `OwnerChain` slices between an event and its stored copy: no code writes through them, so chains are values.
- Invalid UTF-8 in messages: strings are sequences of code points.
- Locking and goroutine scheduling below the level of whole operations: every operation holds its lock throughout.
- Store.Add: does not model the wrap-around of the id counter after 2^64 insertions.
