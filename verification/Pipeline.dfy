/** The bounded, dropping pipeline that feeds the event store. */
module Pipeline {
  import opened Events
  import opened Episodes
  import opened EventStore
  import opened Messages
  import opened OwnerChains
  import Seqs

  const PIPELINE_BUFFER := 512

  /** What an informer callback receives: an Event, or an object of another type. */
  datatype Notification = Event(raw: RawEvent) | Other

  /** One atomic action of the callback or of the pipeline goroutine. */
  datatype Action =
    | Handle(obj: Notification)   // a callback runs
    | Take                        // the goroutine receives from the channel
    | Finish(cluster: Cluster)    // it resolves the owner chain against `cluster` and stores

  /** The elements marked with `b`, in order. */
  ghost function Marked(s: seq<NormalizedEvent>, marks: seq<bool>, b: bool): seq<NormalizedEvent>
    requires |s| == |marks|
  {
    if s == [] then []
    else Marked(s[..|s|-1], marks[..|s|-1], b) + (if marks[|s|-1] == b then [s[|s|-1]] else [])
  }

  lemma MarkedAppend(s: seq<NormalizedEvent>, marks: seq<bool>, e: NormalizedEvent, m: bool, b: bool)
    requires |s| == |marks|
    ensures Marked(s + [e], marks + [m], b) == Marked(s, marks, b) + (if m == b then [e] else [])
  {
    assert (s + [e])[..|s|] == s && (marks + [m])[..|s|] == marks;
  }

  lemma PartitionStep(p: seq<NormalizedEvent>, a: seq<NormalizedEvent>, b: seq<NormalizedEvent>, e: NormalizedEvent,
                      m: bool)
    requires multiset(p) == multiset(a) + multiset(b)
    ensures multiset(p + [e]) ==
            multiset(a + (if m then [e] else [])) + multiset(b + (if m then [] else [e]))
  {
  }

  lemma {:induction false} MarkedPartition(s: seq<NormalizedEvent>, marks: seq<bool>)
    requires |s| == |marks|
    ensures multiset(s) == multiset(Marked(s, marks, true)) + multiset(Marked(s, marks, false))
  {
    if s == [] {
    } else {
      var p, e, mp, m := s[..|s|-1], s[|s|-1], marks[..|s|-1], marks[|s|-1];
      assert s == p + [e] && marks == mp + [m];
      MarkedPartition(p, mp);
      MarkedAppend(p, mp, e, m, true);
      MarkedAppend(p, mp, e, m, false);
      PartitionStep(p, Marked(p, mp, true), Marked(p, mp, false), e, m);
    }
  }

  /** The store's input is the taken events, each enriched. */
  ghost predicate AllEnriched(clusters: seq<Cluster>, added: seq<NormalizedEvent>, stored: seq<NormalizedEvent>) {
    && |clusters| == |added| == |stored|
    && forall i :: 0 <= i < |added| ==> IsEnriched(clusters[i], added[i], stored[i])
  }

  lemma AllEnrichedAppend(clusters: seq<Cluster>, added: seq<NormalizedEvent>, stored: seq<NormalizedEvent>,
                          c: Cluster, raw: NormalizedEvent, e: NormalizedEvent)
    requires AllEnriched(clusters, added, stored) && IsEnriched(c, raw, e)
    ensures AllEnriched(clusters + [c], added + [raw], stored + [e])
  {
  }

  /** A failed resolution leaves the event as it came. */
  method Enrich(c: Cluster, ne: NormalizedEvent) returns (enriched: NormalizedEvent)
    ensures IsEnriched(c, ne, enriched)
  {
    var chain, failed := ResolveOwnerChain(c, Involved(ne));
    enriched := ne;
    if !failed {
      enriched := ne.(ownerChain := chain);
    }
  }

  /** Enrich and store one event; the store's input stays the enriched additions. */
  method Deliver(store: Store, ne: NormalizedEvent, c: Cluster, ghost clusters: seq<Cluster>,
                 ghost added: seq<NormalizedEvent>)
    returns (ghost stored: NormalizedEvent)
    requires store.Valid() && AllEnriched(clusters, added, store.log)
    modifies store, store.order
    ensures store.Valid() && AllEnriched(clusters + [c], added + [ne], store.log)
    ensures IsEnriched(c, ne, stored) && store.log == old(store.log) + [stored]
  {
    var enriched := Enrich(c, ne);
    stored := enriched;
    AllEnrichedAppend(clusters, added, store.log, c, ne, stored);
    store.Add(enriched);
  }

  /** Where every handled event is. */
  datatype Accounts = Accounts(
    pipeline: seq<NormalizedEvent>, inFlight: seq<NormalizedEvent>,
    handled: seq<NormalizedEvent>, accepted: seq<bool>,
    added: seq<NormalizedEvent>, clusters: seq<Cluster>)

  /** Before anything has happened. */
  const IDLE: Accounts := Accounts([], [], [], [], [], [])

  /** The effect of one action; a pipeline step that is not enabled waits. */
  ghost function Next(clusterName: string, s: Accounts, a: Action): Accounts {
    match a
    case Handle(Other) => s
    case Handle(Event(raw)) =>
      var ne, room := Normalize(clusterName, raw), |s.pipeline| < PIPELINE_BUFFER;
      s.(pipeline := s.pipeline + (if room then [ne] else []),
         handled := s.handled + [ne], accepted := s.accepted + [room])
    case Take =>
      if s.pipeline != [] && s.inFlight == [] then s.(inFlight := [s.pipeline[0]], pipeline := s.pipeline[1..]) else s
    case Finish(c) =>
      if s.inFlight != [] then s.(inFlight := [], added := s.added + s.inFlight, clusters := s.clusters + [c]) else s
  }

  /** The queue is within its bound, and the accepted events are those added, in flight and queued, in this order. */
  ghost predicate Balanced(s: Accounts) {
    && |s.pipeline| <= PIPELINE_BUFFER && |s.inFlight| <= 1
    && |s.accepted| == |s.handled|
    && Marked(s.handled, s.accepted, true) == s.added + s.inFlight + s.pipeline
  }

  lemma NextBalanced(clusterName: string, s: Accounts, a: Action)
    requires Balanced(s)
    ensures Balanced(Next(clusterName, s, a))
  {
    match a
    case Handle(Other) =>
    case Handle(Event(raw)) =>
      MarkedAppend(s.handled, s.accepted, Normalize(clusterName, raw), |s.pipeline| < PIPELINE_BUFFER, true);
    case Take =>
      if s.pipeline != [] {
        assert s.pipeline == [s.pipeline[0]] + s.pipeline[1..];
      }
    case Finish(_) =>
  }

  lemma FinishIsNext(clusterName: string, s: Accounts, c: Cluster)
    requires |s.inFlight| == 1
    ensures Next(clusterName, s, Finish(c)) ==
            s.(inFlight := [], added := s.added + [s.inFlight[0]], clusters := s.clusters + [c])
  {
    assert s.inFlight == [s.inFlight[0]];
  }

  ghost function Play(clusterName: string, s: Accounts, actions: seq<Action>): Accounts {
    if actions == [] then s
    else Next(clusterName, Play(clusterName, s, actions[..|actions|-1]), actions[|actions|-1])
  }

  lemma PlayStep(clusterName: string, s: Accounts, actions: seq<Action>, i: nat)
    requires i < |actions|
    ensures Play(clusterName, s, actions[..i + 1]) == Next(clusterName, Play(clusterName, s, actions[..i]), actions[i])
  {
    assert actions[..i + 1][..i] == actions[..i];
  }

  /** `n` rounds of receiving and storing, with no callback in between. */
  ghost function Rounds(c: Cluster, n: nat): seq<Action> {
    if n == 0 then [] else Rounds(c, n - 1) + [Take, Finish(c)]
  }

  lemma RoundDelivers(clusterName: string, t: Accounts, c: Cluster)
    requires t.inFlight == [] && t.pipeline != []
    ensures var u := Next(clusterName, Next(clusterName, t, Take), Finish(c));
            u.inFlight == [] && u.pipeline == t.pipeline[1..] && u.added == t.added + [t.pipeline[0]]
  {
  }

  lemma PlayRound(clusterName: string, s: Accounts, c: Cluster, n: nat)
    requires n > 0
    ensures Play(clusterName, s, Rounds(c, n)) ==
            Next(clusterName, Next(clusterName, Play(clusterName, s, Rounds(c, n - 1)), Take), Finish(c))
  {
    var before, all := Rounds(c, n - 1), Rounds(c, n);
    assert all[..|all|-1] == before + [Take] && (before + [Take])[..|before|] == before;
  }

  /** Left alone, the goroutine delivers the whole queue in order. */
  lemma {:induction false} DrainDelivers(clusterName: string, s: Accounts, c: Cluster, n: nat)
    requires s.inFlight == [] && n <= |s.pipeline|
    ensures var t := Play(clusterName, s, Rounds(c, n));
            t.inFlight == [] && t.pipeline == s.pipeline[n..] && t.added == s.added + s.pipeline[..n]
  {
    if n == 0 {
    } else {
      DrainDelivers(clusterName, s, c, n - 1);
      PlayRound(clusterName, s, c, n);
      RoundDelivers(clusterName, Play(clusterName, s, Rounds(c, n - 1)), c);
      assert s.pipeline[..n] == s.pipeline[..n - 1] + [s.pipeline[n - 1]];
    }
  }

  // ---- when an event is dropped, and where a stored one comes from ----

  /** What one callback with an Event does: it is queued, in normal form, exactly when fewer than 512 are waiting. */
  ghost predicate Offers(clusterName: string, raw: RawEvent, before: Accounts, after: Accounts) {
    && |after.handled| == |before.handled| + 1 && |after.accepted| == |before.accepted| + 1
    && var ne, accepted := after.handled[|before.handled|], after.accepted[|before.accepted|];
       && IsRecordOf(clusterName, raw, ne)
       && after.handled == before.handled + [ne] && after.accepted == before.accepted + [accepted]
       && (accepted <==> |before.pipeline| < 512)
       && after.pipeline == (if accepted then before.pipeline + [ne] else before.pipeline)
       && after.inFlight == before.inFlight && after.added == before.added && after.clusters == before.clusters
  }

  lemma HandleOffers(clusterName: string, s: Accounts, raw: RawEvent)
    ensures Offers(clusterName, raw, s, Next(clusterName, s, Handle(Event(raw))))
  {
    NormalizeFills(clusterName, raw);
    assert s.pipeline + [] == s.pipeline;
  }

  /** In every run, an event is dropped exactly when 512 are waiting at its callback. */
  lemma DroppedIffFull(clusterName: string, actions: seq<Action>, k: nat, raw: RawEvent)
    requires k < |actions| && actions[k] == Handle(Event(raw))
    ensures Offers(clusterName, raw, Play(clusterName, IDLE, actions[..k]), Play(clusterName, IDLE, actions[..k + 1]))
  {
    PlayStep(clusterName, IDLE, actions, k);
    HandleOffers(clusterName, Play(clusterName, IDLE, actions[..k]), raw);
  }

  /** The first 512 of `n` handled events wait. */
  ghost predicate Filled(s: Accounts, n: nat) {
    && |s.handled| == n && |s.pipeline| == (if n <= 512 then n else 512)
    && s.pipeline == s.handled[..|s.pipeline|]
  }

  lemma OfferFills(clusterName: string, raw: RawEvent, before: Accounts, after: Accounts, n: nat)
    requires Filled(before, n) && Offers(clusterName, raw, before, after)
    ensures Filled(after, n + 1)
  {
    if n < 512 {
      assert before.pipeline == before.handled;
    }
  }

  lemma PlayCallback(clusterName: string, raws: seq<RawEvent>, raw: RawEvent)
    ensures Play(clusterName, IDLE, Seqs.Map(Callback, raws + [raw])) ==
            Next(clusterName, Play(clusterName, IDLE, Seqs.Map(Callback, raws)), Handle(Event(raw)))
  {
    var actions := Seqs.Map(Callback, raws + [raw]);
    assert actions[..|actions|-1] == Seqs.Map(Callback, raws);
  }

  /** So a burst of callbacks before the goroutine runs queues the first 512. */
  lemma {:induction false} BurstFills(clusterName: string, raws: seq<RawEvent>)
    ensures Filled(Play(clusterName, IDLE, Seqs.Map(Callback, raws)), |raws|)
  {
    if raws == [] {
    } else {
      var p, raw := raws[..|raws|-1], raws[|raws|-1];
      assert raws == p + [raw];
      BurstFills(clusterName, p);
      PlayCallback(clusterName, p, raw);
      var before := Play(clusterName, IDLE, Seqs.Map(Callback, p));
      HandleOffers(clusterName, before, raw);
      OfferFills(clusterName, raw, before, Next(clusterName, before, Handle(Event(raw))), |p|);
    }
  }

  function Callback(raw: RawEvent): Action {
    Handle(Event(raw))
  }

  /** The event is about what the raw event of one of the callbacks is about. */
  ghost predicate StemsFrom(v: NormalizedEvent, clusterName: string, actions: seq<Action>) {
    exists raw :: Handle(Event(raw)) in actions && IsAboutRaw(v, clusterName, raw)
  }

  ghost predicate IsAboutRaw(v: NormalizedEvent, clusterName: string, raw: RawEvent) {
    && v.clusterName == clusterName && v.namespace == raw.namespace
    && v.objectKind == raw.objectKind && v.objectName == raw.objectName
    && v.objectUid == raw.objectUid && v.reason == raw.reason
  }

  lemma {:induction false} HandledStems(clusterName: string, actions: seq<Action>, ne: NormalizedEvent)
    requires ne in Play(clusterName, IDLE, actions).handled
    ensures StemsFrom(ne, clusterName, actions)
  {
    var p, a := actions[..|actions|-1], actions[|actions|-1];
    assert actions == p + [a];
    if ne in Play(clusterName, IDLE, p).handled {
      HandledStems(clusterName, p, ne);
      var raw :| Handle(Event(raw)) in p && IsAboutRaw(ne, clusterName, raw);
      assert Handle(Event(raw)) in actions;
    } else {
      NormalizeFills(clusterName, a.obj.raw);
      assert a in actions && IsAboutRaw(ne, clusterName, a.obj.raw);
    }
  }

  lemma AddedWasHandled(s: Accounts, ne: NormalizedEvent)
    requires Balanced(s) && ne in s.added
    ensures ne in s.handled
  {
    MarkedPartition(s.handled, s.accepted);
    assert ne in Marked(s.handled, s.accepted, true);
    assert ne in multiset(Marked(s.handled, s.accepted, true));
    assert ne in multiset(s.handled);
  }

  /** Whatever a store holds that a watcher has fed stems from a callback. */
  lemma StoredStems(clusterName: string, actions: seq<Action>, stored: seq<NormalizedEvent>, capacity: nat,
                    v: NormalizedEvent)
    requires var s := Play(clusterName, IDLE, actions); Balanced(s) && AllEnriched(s.clusters, s.added, stored)
    requires v in ListReplay(capacity, stored)
    ensures StemsFrom(v, clusterName, actions)
  {
    var s := Play(clusterName, IDLE, actions);
    StoredOriginates(capacity, stored, v);
    var d :| d in stored && SameOrigin(v, d);
    var i :| 0 <= i < |stored| && stored[i] == d;
    assert IsEnriched(s.clusters[i], s.added[i], stored[i]);
    AddedWasHandled(s, s.added[i]);
    HandledStems(clusterName, actions, s.added[i]);
    var raw :| Handle(Event(raw)) in actions && IsAboutRaw(s.added[i], clusterName, raw);
    assert IsAboutRaw(v, clusterName, raw);
  }

  class Watcher {
    const clusterName: string
    const store: Store
    var pipeline: seq<NormalizedEvent>
    var inFlight: seq<NormalizedEvent>        // received, not yet stored

    ghost var handled: seq<NormalizedEvent>   // every normalised event a callback offered
    ghost var accepted: seq<bool>             // which of them entered the channel
    ghost var added: seq<NormalizedEvent>     // those whose processing has finished
    ghost var clusters: seq<Cluster>          // the cluster state each was resolved against

    ghost function State(): Accounts
      reads this
    {
      Accounts(pipeline, inFlight, handled, accepted, added, clusters)
    }

    /** The accounts balance, and what the store was given is the enriched additions. */
    ghost predicate Fed()
      reads this, store
    {
      Balanced(State()) && AllEnriched(clusters, added, store.log)
    }

    ghost predicate Valid()
      reads this, store, store.order
    {
      Fed() && store.Valid()
    }

    constructor (clusterName: string, store: Store)
      requires store.Valid() && store.log == []
      ensures Valid() && this.store == store && this.clusterName == clusterName
      ensures State() == IDLE
    {
      this.clusterName := clusterName;
      this.store := store;
      pipeline, inFlight := [], [];
      handled, accepted, added, clusters := [], [], [], [];
    }

    /** Never blocks: a full channel drops the event. */
    method HandleObject(obj: Notification)
      requires Valid()
      modifies this
      ensures Valid() && State() == Next(clusterName, old(State()), Handle(obj))
      ensures obj.Event? ==> Offers(clusterName, obj.raw, old(State()), State())
      ensures obj.Other? ==> State() == old(State())
    {
      if obj.Event? {
        HandleOffers(clusterName, State(), obj.raw);
      }
      NextBalanced(clusterName, State(), Handle(obj));
      if obj.Other? {
        return;
      }
      var ne := Normalize(clusterName, obj.raw);
      var room := |pipeline| < PIPELINE_BUFFER;
      if room {
        pipeline := pipeline + [ne];
      }
      handled, accepted := handled + [ne], accepted + [room];
    }

    method Receive()
      requires Valid() && pipeline != [] && inFlight == []
      modifies this`pipeline, this`inFlight
      ensures Valid() && State() == Next(clusterName, old(State()), Take)
    {
      NextBalanced(clusterName, State(), Take);
      inFlight, pipeline := [pipeline[0]], pipeline[1..];
    }

    method Process(c: Cluster) returns (ghost stored: NormalizedEvent)
      requires Valid() && inFlight != []
      modifies this`inFlight, this`added, this`clusters, store, store.order
      ensures Valid()
      ensures inFlight == [] && added == old(added) + [old(inFlight[0])] && clusters == old(clusters) + [c]
      ensures IsEnriched(c, old(inFlight[0]), stored) && store.log == old(store.log) + [stored]
    {
      stored := Deliver(store, inFlight[0], c, clusters, added);
      Settle(c);
    }

    /** The event in flight is done. */
    method Settle(c: Cluster)
      requires Balanced(State()) && inFlight != []
      modifies this`inFlight, this`added, this`clusters
      ensures Balanced(State())
      ensures inFlight == [] && added == old(added) + [old(inFlight[0])] && clusters == old(clusters) + [c]
    {
      NextBalanced(clusterName, State(), Finish(c));
      assert inFlight == [inFlight[0]];
      added, clusters, inFlight := added + inFlight, clusters + [c], [];
    }

    method Act(a: Action)
      requires Valid()
      modifies this, store, store.order
      ensures Valid() && State() == Next(clusterName, old(State()), a)
    {
      match a {
        case Handle(obj) => HandleObject(obj);
        case Take =>
          if pipeline != [] && inFlight == [] {
            Receive();
          }
        case Finish(c) =>
          if inFlight != [] {
            Complete(c);
          }
      }
    }

    method Complete(c: Cluster)
      requires Valid() && inFlight != []
      modifies this`inFlight, this`added, this`clusters, store, store.order
      ensures Valid() && State() == Next(clusterName, old(State()), Finish(c))
    {
      FinishIsNext(clusterName, State(), c);
      ghost var _ := Process(c);
    }

    /** Any interleaving of callbacks and pipeline steps. */
    method Run(actions: seq<Action>)
      requires Valid()
      modifies this, store, store.order
      ensures Valid() && State() == Play(clusterName, old(State()), actions)
    {
      for i := 0 to |actions|
        invariant Valid() && State() == Play(clusterName, old(State()), actions[..i])
      {
        PlayStep(clusterName, old(State()), actions, i);
        Act(actions[i]);
      }
      assert actions[..|actions|] == actions;
    }

    /**
      Every handled event is in exactly one of dropped, added, in flight or queued; the store
      is the fold of the additions.
     */
    lemma Conservation()
      requires Valid()
      ensures multiset(handled) ==
              multiset(Marked(handled, accepted, false)) + multiset(added) + multiset(inFlight) + multiset(pipeline)
      ensures added <= Marked(handled, accepted, true)
      ensures store.Contents() == ListReplay(store.maxSize, store.log)
    {
      MarkedPartition(handled, accepted);
      store.RefinesList();
    }
  }
}
