/** When root-cause flags do not depend on the order in which ties are broken. */
module RootFlags {
  import opened Events
  import opened Causality
  import opened Correlation
  import opened Timelines
  import Seqs

  /** What a run says of an event: the event and whether it is a root cause. */
  function Flag(ce: CorrelatedEvent): (NormalizedEvent, bool) {
    (ce.event, ce.isRootCause)
  }

  ghost predicate HasEarlierCause(k: EdgeTable, evs: seq<NormalizedEvent>, e: NormalizedEvent) {
    exists p :: p in evs && Causes(k, p, e) && p.lastSeen < e.lastSeen
  }

  ghost predicate HasTiedCause(k: EdgeTable, evs: seq<NormalizedEvent>, e: NormalizedEvent) {
    exists p :: p in evs && Causes(k, p, e) && p.lastSeen == e.lastSeen
  }

  /** No event depends on how a tie with one of its causes is broken. */
  ghost predicate TiesAreHarmless(k: EdgeTable, evs: seq<NormalizedEvent>) {
    forall e :: e in evs && HasTiedCause(k, evs, e) ==> HasEarlierCause(k, evs, e)
  }

  /** Any two runs, from any input order and any build order of the inverse index, agree on all flags. */
  ghost predicate FlagsAreDetermined(k: EdgeTable, evs: seq<NormalizedEvent>) {
    forall idx, idx', a, b, t, t' ::
      IsInverse(idx, k.edges) && IsInverse(idx', k.edges)
      && multiset(a) == multiset(evs) && multiset(b) == multiset(evs)
      && IsRun(idx, a, t) && IsRun(idx', b, t')
      ==> multiset(Seqs.Map(Flag, t.events)) == multiset(Seqs.Map(Flag, t'.events))
  }

  ghost function Expected(k: EdgeTable, evs: seq<NormalizedEvent>): NormalizedEvent -> (NormalizedEvent, bool) {
    e => (e, !HasEarlierCause(k, evs, e))
  }

  lemma EarlierCauseShows(k: EdgeTable, idx: CausedBy, evs: seq<NormalizedEvent>, s: seq<NormalizedEvent>, i: nat)
    requires IsInverse(idx, k.edges) && k.Climbs() && IsSortOf(s, evs) && i < |s|
    requires HasEarlierCause(k, evs, s[i])
    ensures !AnnotateAll(idx, s)[i].isRootCause
  {
    var p :| p in evs && Causes(k, p, s[i]) && p.lastSeen < s[i].lastSeen;
    Seqs.SameMembers(s, evs, p);
    var j :| 0 <= j < |s| && s[j] == p;
    assert i < j ==> SeenAt(s[i]) <= SeenAt(s[j]);
    FlagAt(k, idx, s, i);
  }

  lemma EffectHasEarlierCause(k: EdgeTable, idx: CausedBy, evs: seq<NormalizedEvent>, s: seq<NormalizedEvent>, i: nat)
    requires IsInverse(idx, k.edges) && k.Climbs() && IsSortOf(s, evs) && TiesAreHarmless(k, evs) && i < |s|
    requires !AnnotateAll(idx, s)[i].isRootCause
    ensures HasEarlierCause(k, evs, s[i])
  {
    FlagAt(k, idx, s, i);
    var j :| 0 <= j < i && Causes(k, s[j], s[i]);
    assert SeenAt(s[j]) <= SeenAt(s[i]);
    Seqs.SameMembers(s, evs, s[i]);
    Seqs.SameMembers(s, evs, s[j]);
    if s[j].lastSeen == s[i].lastSeen {
      assert HasTiedCause(k, evs, s[i]);
    }
  }

  lemma FlagIsExpected(k: EdgeTable, idx: CausedBy, evs: seq<NormalizedEvent>, s: seq<NormalizedEvent>, i: nat)
    requires IsInverse(idx, k.edges) && k.Climbs() && IsSortOf(s, evs) && TiesAreHarmless(k, evs) && i < |s|
    ensures Flag(AnnotateAll(idx, s)[i]) == Expected(k, evs)(s[i])
  {
    if HasEarlierCause(k, evs, s[i]) {
      EarlierCauseShows(k, idx, evs, s, i);
    }
    if !AnnotateAll(idx, s)[i].isRootCause {
      EffectHasEarlierCause(k, idx, evs, s, i);
    }
  }

  /** Under harmless ties the flags are those of a run-independent description. */
  lemma FlagsAreExpected(k: EdgeTable, idx: CausedBy, evs: seq<NormalizedEvent>, a: seq<NormalizedEvent>, tl: Timeline)
    requires IsInverse(idx, k.edges) && k.Climbs() && TiesAreHarmless(k, evs)
    requires multiset(a) == multiset(evs) && IsRun(idx, a, tl)
    ensures multiset(Seqs.Map(Flag, tl.events)) == multiset(Seqs.Map(Expected(k, evs), evs))
  {
    var s: seq<NormalizedEvent> :| RunWith(idx, a, s, tl);
    var pass := AnnotateAll(idx, s);
    Seqs.MapPermuted(Flag, tl.events, pass);
    forall i | 0 <= i < |s|
      ensures Seqs.Map(Flag, pass)[i] == Seqs.Map(Expected(k, evs), s)[i]
    {
      FlagIsExpected(k, idx, evs, s, i);
    }
    assert Seqs.Map(Flag, pass) == Seqs.Map(Expected(k, evs), s);
    Seqs.MapPermuted(Expected(k, evs), s, evs);
  }

  // ---- the converse: a harmful tie can be broken both ways ----

  ghost predicate FirstOfTies(s: seq<NormalizedEvent>, n: nat, x: NormalizedEvent) {
    n < |s| && s[n] == x && forall j :: 0 <= j < n ==> s[j].lastSeen < x.lastSeen
  }

  /** Some sorted arrangement puts `x` before everything it is tied with. */
  lemma SortWithFirst(evs: seq<NormalizedEvent>, x: NormalizedEvent) returns (s: seq<NormalizedEvent>, n: nat)
    requires x in evs
    ensures IsSortOf(s, evs) && FirstOfTies(s, n, x)
  {
    var key := (e: NormalizedEvent) => 2 * e.lastSeen + if e == x then 0 else 1;
    Seqs.SortedOrders(key, evs);
    s := Seqs.Sorted(key, evs);
    forall i, j | 0 <= i < j < |s|
      ensures SeenAt(s[i]) <= SeenAt(s[j])
    {
      assert key(s[i]) <= key(s[j]);
    }
    Seqs.SameMembers(s, evs, x);
    n := FirstIndex(s, x);
    forall j | 0 <= j < n
      ensures s[j].lastSeen < x.lastSeen
    {
      assert key(s[j]) <= key(s[n]);
    }
  }

  lemma FirstIndex(s: seq<NormalizedEvent>, x: NormalizedEvent) returns (n: nat)
    requires x in s
    ensures n < |s| && s[n] == x && forall j :: 0 <= j < n ==> s[j] != x
  {
    n := 0;
    while s[n] != x
      invariant n < |s| && x !in s[..n]
      decreases |s| - n
    {
      n := n + 1;
    }
  }

  /** Every first sort has a run: the annotated pass is itself in time order. */
  lemma RunExists(idx: CausedBy, evs: seq<NormalizedEvent>, s: seq<NormalizedEvent>) returns (tl: Timeline)
    requires IsSortOf(s, evs)
    ensures RunWith(idx, evs, s, tl) && tl.events == AnnotateAll(idx, s)
  {
    var pass := AnnotateAll(idx, s);
    tl := Timeline(pass, RootsOf(pass));
    forall i, j | 0 <= i < j < |pass|
      ensures CorrelatedAt(pass[i]) <= CorrelatedAt(pass[j])
    {
      assert SeenAt(s[i]) <= SeenAt(s[j]);
    }
  }

  /** The run that breaks ties in favour of `e` flags it as a root cause. */
  lemma FavouredIsRoot(k: EdgeTable, idx: CausedBy, evs: seq<NormalizedEvent>, e: NormalizedEvent)
    returns (tl: Timeline)
    requires IsInverse(idx, k.edges) && k.Climbs() && e in evs && !HasEarlierCause(k, evs, e)
    ensures IsRun(idx, evs, tl) && (e, true) in Seqs.Map(Flag, tl.events)
  {
    var s, n := SortWithFirst(evs, e);
    tl := RunExists(idx, evs, s);
    FlagAt(k, idx, s, n);
    forall j | 0 <= j < n
      ensures !Causes(k, s[j], s[n])
    {
      Seqs.SameMembers(s, evs, s[j]);
    }
    assert Seqs.Map(Flag, tl.events)[n] == (e, true);
  }

  lemma EffectOfFirst(k: EdgeTable, idx: CausedBy, s: seq<NormalizedEvent>, n: nat, p: NormalizedEvent, i: nat)
    requires IsInverse(idx, k.edges) && k.Climbs() && FirstOfTies(s, n, p) && i < |s|
    requires Causes(k, p, s[i]) && p.lastSeen == s[i].lastSeen
    ensures !AnnotateAll(idx, s)[i].isRootCause
  {
    assert p.reason != s[i].reason;
    assert n < i;
    FlagAt(k, idx, s, i);
  }

  /** The run that breaks ties in favour of a tied cause `p` never flags `e` as a root cause. */
  lemma FavouredCauseWins(k: EdgeTable, idx: CausedBy, evs: seq<NormalizedEvent>, e: NormalizedEvent,
                          p: NormalizedEvent)
    returns (tl: Timeline)
    requires IsInverse(idx, k.edges) && k.Climbs() && p in evs && Causes(k, p, e) && p.lastSeen == e.lastSeen
    ensures IsRun(idx, evs, tl) && (e, true) !in Seqs.Map(Flag, tl.events)
  {
    var s, n := SortWithFirst(evs, p);
    tl := RunExists(idx, evs, s);
    forall i | 0 <= i < |s|
      ensures Flag(AnnotateAll(idx, s)[i]) != (e, true)
    {
      if s[i] == e {
        EffectOfFirst(k, idx, s, n, p, i);
      }
    }
  }

  lemma HarmfulTieSplits(k: EdgeTable, idx: CausedBy, evs: seq<NormalizedEvent>)
    requires IsInverse(idx, k.edges) && k.Climbs() && !TiesAreHarmless(k, evs)
    ensures !FlagsAreDetermined(k, evs)
  {
    var e :| e in evs && HasTiedCause(k, evs, e) && !HasEarlierCause(k, evs, e);
    var p :| p in evs && Causes(k, p, e) && p.lastSeen == e.lastSeen;
    var t := FavouredIsRoot(k, idx, evs, e);
    var t' := FavouredCauseWins(k, idx, evs, e, p);
    assert (e, true) in multiset(Seqs.Map(Flag, t.events));
    assert (e, true) !in multiset(Seqs.Map(Flag, t'.events));
  }

  /**
    Root-cause flags are independent of input order, of the unstable sorts and of the build
    order of the inverse index exactly when every event tied with one of its causes also has
    a strictly earlier cause.
   */
  lemma FlagsDeterminedIff(k: EdgeTable, idx: CausedBy, evs: seq<NormalizedEvent>)
    requires IsInverse(idx, k.edges) && k.Climbs()
    ensures FlagsAreDetermined(k, evs) <==> TiesAreHarmless(k, evs)
  {
    if TiesAreHarmless(k, evs) {
      forall i, i', a, b, t, t' |
        IsInverse(i, k.edges) && IsInverse(i', k.edges)
        && multiset(a) == multiset(evs) && multiset(b) == multiset(evs)
        && IsRun(i, a, t) && IsRun(i', b, t')
        ensures multiset(Seqs.Map(Flag, t.events)) == multiset(Seqs.Map(Flag, t'.events))
      {
        FlagsAreExpected(k, i, evs, a, t);
        FlagsAreExpected(k, i', evs, b, t');
      }
    } else {
      HarmfulTieSplits(k, idx, evs);
    }
  }

  /** In particular when all last-seen times are distinct. */
  lemma DistinctTimesDetermineFlags(k: EdgeTable, idx: CausedBy, evs: seq<NormalizedEvent>)
    requires IsInverse(idx, k.edges) && k.Climbs()
    requires forall i, j :: 0 <= i < j < |evs| ==> evs[i].lastSeen != evs[j].lastSeen
    ensures FlagsAreDetermined(k, evs)
  {
    forall e, p | e in evs && p in evs && Causes(k, p, e)
      ensures p.lastSeen != e.lastSeen
    {
      assert p.reason != e.reason;
      var i :| 0 <= i < |evs| && evs[i] == e;
      var j :| 0 <= j < |evs| && evs[j] == p;
    }
    FlagsDeterminedIff(k, idx, evs);
  }

  /** With the shipped table. */
  lemma KnownFlagsDeterminedIff(idx: CausedBy, evs: seq<NormalizedEvent>)
    requires IsInverse(idx, CAUSAL_EDGES)
    ensures FlagsAreDetermined(KNOWN_CAUSES, evs) <==> TiesAreHarmless(KNOWN_CAUSES, evs)
  {
    KnownCausesClimb();
    FlagsDeterminedIff(KNOWN_CAUSES, idx, evs);
  }

  function Sample(reason: string, t: Time): NormalizedEvent {
    NormalizedEvent("c", "ns", "Pod", "p", "uid-1", [], reason, "", 1, t, t)
  }

  /** A concrete tie: a failed mount and a back-off of one pod at the same moment. */
  lemma TieSplitsFlags(idx: CausedBy, t: Time)
    requires IsInverse(idx, CAUSAL_EDGES)
    ensures !FlagsAreDetermined(KNOWN_CAUSES, [Sample("FailedMount", t), Sample("BackOff", t)])
  {
    var a, b := Sample("FailedMount", t), Sample("BackOff", t);
    var evs := [a, b];
    KnownCausesClimb();
    assert a in evs && b in evs;
    assert KNOWN_CAUSES.Edge(a.reason, b.reason);
    assert HasTiedCause(KNOWN_CAUSES, evs, b);
    HarmfulTieSplits(KNOWN_CAUSES, idx, evs);
  }
}
