/** What every correlated timeline satisfies, whatever the sorts and map iterations chose. */
module Timelines {
  import opened Events
  import opened Causality
  import opened Correlation
  import Seqs

  /** `p` can cause `e`: same workload and a known edge between their reasons. */
  predicate Causes(k: EdgeTable, p: NormalizedEvent, e: NormalizedEvent) {
    GroupIdFor(p) == GroupIdFor(e) && k.Edge(p.reason, e.reason)
  }

  lemma SeenReasons(g: GroupId, s: seq<NormalizedEvent>, reason: string)
    ensures reason in ReasonsOf(InGroup(g, s)) <==>
            exists j :: 0 <= j < |s| && GroupIdFor(s[j]) == g && s[j].reason == reason
  {
    forall e
      ensures e in InGroup(g, s) <==> e in s && GroupIdFor(e) == g
    {
      Seqs.FilterMember(OfGroup(g), s, e);
    }
  }

  /** An event is a root cause exactly when nothing before it in the sorted order can cause it. */
  lemma FlagAt(k: EdgeTable, idx: CausedBy, s: seq<NormalizedEvent>, i: nat)
    requires IsInverse(idx, k.edges) && k.Climbs() && i < |s|
    ensures var ce := AnnotateAll(idx, s)[i];
            && ce.event == s[i] && ce.groupId == GroupIdFor(s[i])
            && (ce.isRootCause <==> ce.causedBy == "")
            && (ce.isRootCause <==> forall j :: 0 <= j < i ==> !Causes(k, s[j], s[i]))
            && (!ce.isRootCause ==> exists j :: 0 <= j < i && Causes(k, s[j], s[i]) && s[j].reason == ce.causedBy)
  {
    var g := GroupIdFor(s[i]);
    var seen := ReasonsOf(InGroup(g, s[..i]));
    FirstSeenIsCause(k, idx, s[i].reason, seen);
    var ce := AnnotateAll(idx, s)[i];
    forall reason
      ensures reason in seen <==> exists j :: 0 <= j < i && GroupIdFor(s[j]) == g && s[j].reason == reason
    {
      SeenReasons(g, s[..i], reason);
      assert forall j :: 0 <= j < i ==> s[..i][j] == s[j];
    }
    if exists j :: 0 <= j < i && Causes(k, s[j], s[i]) {
      var j :| 0 <= j < i && Causes(k, s[j], s[i]);
      assert s[j].reason in seen;
    }
  }

  // ---- causal traces ----

  ghost predicate IsHop(k: EdgeTable, effect: CorrelatedEvent, cause: CorrelatedEvent) {
    && cause.groupId == effect.groupId
    && k.Edge(cause.event.reason, effect.event.reason)
    && effect.causedBy == cause.event.reason
    && cause.event.lastSeen <= effect.event.lastSeen
  }

  /** A chain of known causes inside `events`, ending at a root cause. */
  ghost predicate IsTrace(k: EdgeTable, t: seq<CorrelatedEvent>, events: seq<CorrelatedEvent>) {
    && |t| > 0
    && (forall n :: 0 <= n < |t| ==> t[n] in events)
    && (forall n :: 0 < n < |t| ==> IsHop(k, t[n - 1], t[n]))
    && t[|t| - 1].isRootCause
  }

  lemma TraceCons(k: EdgeTable, ce: CorrelatedEvent, rest: seq<CorrelatedEvent>, events: seq<CorrelatedEvent>)
    requires ce in events && IsTrace(k, rest, events) && IsHop(k, ce, rest[0])
    ensures IsTrace(k, [ce] + rest, events)
  {
    var t := [ce] + rest;
    assert forall n :: 0 <= n < |rest| ==> t[n + 1] == rest[n];
  }

  lemma {:induction false} TraceFrom(k: EdgeTable, idx: CausedBy, s: seq<NormalizedEvent>, i: nat)
    returns (t: seq<CorrelatedEvent>)
    requires IsInverse(idx, k.edges) && k.Climbs() && Seqs.Ascending(SeenAt, s) && i < |s|
    ensures IsTrace(k, t, AnnotateAll(idx, s)) && t[0] == AnnotateAll(idx, s)[i]
    ensures |t| - 1 <= k.level(s[i].reason) && |t| - 1 <= k.height
  {
    var pass := AnnotateAll(idx, s);
    if pass[i].isRootCause {
      t := [pass[i]];
    } else {
      var j := CauseOf(k, idx, s, i);
      var rest := TraceFrom(k, idx, s, j);
      TraceCons(k, pass[i], rest, pass);
      t := [pass[i]] + rest;
    }
  }

  /** The earlier event named by a non-root event's `causedBy`. */
  lemma CauseOf(k: EdgeTable, idx: CausedBy, s: seq<NormalizedEvent>, i: nat) returns (j: nat)
    requires IsInverse(idx, k.edges) && k.Climbs() && Seqs.Ascending(SeenAt, s) && i < |s|
    requires !AnnotateAll(idx, s)[i].isRootCause
    ensures j < i && IsHop(k, AnnotateAll(idx, s)[i], AnnotateAll(idx, s)[j])
    ensures k.level(s[j].reason) < k.level(s[i].reason) <= k.height
  {
    FlagAt(k, idx, s, i);
    j :| 0 <= j < i && Causes(k, s[j], s[i]) && s[j].reason == AnnotateAll(idx, s)[i].causedBy;
    assert SeenAt(s[j]) <= SeenAt(s[i]);
  }

  /** Every event of a timeline traces back, within its group and in at most `height` hops, to a root cause. */
  lemma CausalTraces(k: EdgeTable, idx: CausedBy, evs: seq<NormalizedEvent>, tl: Timeline, ce: CorrelatedEvent)
    requires IsInverse(idx, k.edges) && k.Climbs() && IsRun(idx, evs, tl) && ce in tl.events
    ensures exists t :: IsTrace(k, t, tl.events) && t[0] == ce && |t| - 1 <= k.height
  {
    var s: seq<NormalizedEvent> :| RunWith(idx, evs, s, tl);
    var pass := AnnotateAll(idx, s);
    Seqs.SameMembers(tl.events, pass, ce);
    var i :| 0 <= i < |pass| && pass[i] == ce;
    var t := TraceFrom(k, idx, s, i);
    forall n | 0 <= n < |t|
      ensures t[n] in tl.events
    {
      Seqs.SameMembers(tl.events, pass, t[n]);
    }
  }

  /** Following the hops never leaves the group. */
  lemma {:induction false} TraceStaysInGroup(k: EdgeTable, t: seq<CorrelatedEvent>, events: seq<CorrelatedEvent>,
                                             n: nat)
    requires IsTrace(k, t, events) && n < |t|
    ensures t[n].groupId == t[0].groupId && t[n].event.lastSeen <= t[0].event.lastSeen
  {
    if n == 0 {
    } else {
      TraceStaysInGroup(k, t, events, n - 1);
      assert IsHop(k, t[n - 1], t[n]);
    }
  }

  // ---- conservation and order ----

  lemma PassConserves(idx: CausedBy, s: seq<NormalizedEvent>)
    ensures Seqs.Map(Plain, AnnotateAll(idx, s)) == s
  {
  }

  lemma TimelineInFields(idx: CausedBy, evs: seq<NormalizedEvent>, tl: Timeline)
    requires IsRun(idx, evs, tl)
    ensures Seqs.Ascending(CorrelatedAt, tl.events)
    ensures forall i, j :: 0 <= i < j < |tl.events| ==> tl.events[i].event.lastSeen <= tl.events[j].event.lastSeen
    ensures forall ce :: ce in tl.rootCauses <==> ce in tl.events && ce.isRootCause
    ensures forall i, j :: 0 <= i < j < |tl.rootCauses| ==>
              tl.rootCauses[i].event.lastSeen <= tl.rootCauses[j].event.lastSeen
  {
    Seqs.FilterAscending(CorrelatedAt, Rooted(), tl.events);
    InTimeOrder(tl.events);
    InTimeOrder(tl.rootCauses);
    forall ce
      ensures ce in tl.rootCauses <==> ce in tl.events && ce.isRootCause
    {
      Seqs.FilterMember(Rooted(), tl.events, ce);
    }
  }

  lemma InTimeOrder(ces: seq<CorrelatedEvent>)
    requires Seqs.Ascending(CorrelatedAt, ces)
    ensures forall i, j :: 0 <= i < j < |ces| ==> ces[i].event.lastSeen <= ces[j].event.lastSeen
  {
    forall i, j | 0 <= i < j < |ces|
      ensures ces[i].event.lastSeen <= ces[j].event.lastSeen
    {
      assert CorrelatedAt(ces[i]) <= CorrelatedAt(ces[j]);
    }
  }

  /** Stripping the annotations gives back exactly the input events, in time order. */
  lemma CorrelationConserves(idx: CausedBy, evs: seq<NormalizedEvent>, tl: Timeline)
    requires IsRun(idx, evs, tl)
    ensures multiset(Seqs.Map(Plain, tl.events)) == multiset(evs)
    ensures Seqs.Ascending(SeenAt, Seqs.Map(Plain, tl.events))
    ensures forall i, j :: 0 <= i < j < |tl.events| ==> tl.events[i].event.lastSeen <= tl.events[j].event.lastSeen
    ensures tl.rootCauses == RootsOf(tl.events)
    ensures forall ce :: ce in tl.rootCauses <==> ce in tl.events && ce.isRootCause
    ensures forall i, j :: 0 <= i < j < |tl.rootCauses| ==>
              tl.rootCauses[i].event.lastSeen <= tl.rootCauses[j].event.lastSeen
  {
    TimelineInFields(idx, evs, tl);
    PlainConserves(idx, evs, tl);
    PlainInOrder(tl.events);
  }

  lemma PlainConserves(idx: CausedBy, evs: seq<NormalizedEvent>, tl: Timeline)
    requires IsRun(idx, evs, tl)
    ensures multiset(Seqs.Map(Plain, tl.events)) == multiset(evs)
  {
    var s: seq<NormalizedEvent> :| RunWith(idx, evs, s, tl);
    Seqs.MapPermuted(Plain, tl.events, AnnotateAll(idx, s));
    PassConserves(idx, s);
  }

  lemma PlainInOrder(ces: seq<CorrelatedEvent>)
    requires Seqs.Ascending(CorrelatedAt, ces)
    ensures Seqs.Ascending(SeenAt, Seqs.Map(Plain, ces))
  {
    var plain := Seqs.Map(Plain, ces);
    forall i, j | 0 <= i < j < |plain|
      ensures SeenAt(plain[i]) <= SeenAt(plain[j])
    {
      assert CorrelatedAt(ces[i]) <= CorrelatedAt(ces[j]);
    }
  }

  /** Every group has a root cause, and a non-empty timeline lists some. */
  lemma GroupsHaveRoots(k: EdgeTable, idx: CausedBy, evs: seq<NormalizedEvent>, tl: Timeline, ce: CorrelatedEvent)
    requires IsInverse(idx, k.edges) && k.Climbs() && IsRun(idx, evs, tl) && ce in tl.events
    ensures exists r :: r in tl.rootCauses && r.groupId == ce.groupId
  {
    CausalTraces(k, idx, evs, tl, ce);
    var t :| IsTrace(k, t, tl.events) && t[0] == ce;
    TraceStaysInGroup(k, t, tl.events, |t| - 1);
    Seqs.FilterMember(Rooted(), tl.events, t[|t| - 1]);
  }

  /** With the shipped table: at most seven hops. */
  lemma KnownCausalTraces(idx: CausedBy, evs: seq<NormalizedEvent>, tl: Timeline, ce: CorrelatedEvent)
    requires IsInverse(idx, CAUSAL_EDGES) && IsRun(idx, evs, tl) && ce in tl.events
    ensures exists t :: IsTrace(KNOWN_CAUSES, t, tl.events) && t[0] == ce && |t| - 1 <= 7
  {
    KnownCausesClimb();
    CausalTraces(KNOWN_CAUSES, idx, evs, tl, ce);
  }
}
