/**
  Causal correlation of events: group by workload, annotate each group in time order with
  a running set of seen reasons, flatten, sort. The reference is a single pass over the
  sorted events; everything else is proved of every choice the unstable sorts, the map
  iterations and the build order of the inverse index can make.
 */
module Correlation {
  import opened Events
  import opened Causality
  import Seqs

  type GroupId = string

  datatype CorrelatedEvent = CorrelatedEvent(event: NormalizedEvent, groupId: GroupId, causedBy: string,
                                             isRootCause: bool)

  datatype Timeline = Timeline(events: seq<CorrelatedEvent>, rootCauses: seq<CorrelatedEvent>)

  /** An object's UID, or Kind/Name when it has none. */
  function LabelOf(kind: string, name: string, uid: string): GroupId {
    if uid != "" then uid else kind + "/" + name
  }

  /** The label of the topmost owner, else of the involved object. */
  function GroupIdFor(e: NormalizedEvent): GroupId {
    if |e.ownerChain| > 0 then
      var root := e.ownerChain[|e.ownerChain| - 1];
      LabelOf(root.kind, root.name, root.uid)
    else LabelOf(e.objectKind, e.objectName, e.objectUid)
  }

  function SeenAt(e: NormalizedEvent): int {
    e.lastSeen
  }

  function CorrelatedAt(ce: CorrelatedEvent): int {
    ce.event.lastSeen
  }

  function Plain(ce: CorrelatedEvent): NormalizedEvent {
    ce.event
  }

  function ReasonsOf(s: seq<NormalizedEvent>): set<string> {
    set e | e in s :: e.reason
  }

  function AnnotateOne(idx: CausedBy, g: GroupId, e: NormalizedEvent, seen: set<string>): CorrelatedEvent {
    var cause := FirstSeen(Preds(idx, e.reason), seen);
    CorrelatedEvent(e, g, cause, cause == "")
  }

  // ---- the loops over one group, and over all ----

  /** Events of one group, each annotated with the reasons seen before it. */
  function Annotate(idx: CausedBy, g: GroupId, evs: seq<NormalizedEvent>): seq<CorrelatedEvent> {
    if evs == [] then []
    else Annotate(idx, g, evs[..|evs|-1]) + [AnnotateOne(idx, g, evs[|evs|-1], ReasonsOf(evs[..|evs|-1]))]
  }

  lemma AnnotateAppend(idx: CausedBy, g: GroupId, evs: seq<NormalizedEvent>, e: NormalizedEvent)
    ensures Annotate(idx, g, evs + [e]) == Annotate(idx, g, evs) + [AnnotateOne(idx, g, e, ReasonsOf(evs))]
  {
    assert (evs + [e])[..|evs|] == evs;
  }

  lemma ReasonsAppend(evs: seq<NormalizedEvent>, e: NormalizedEvent)
    ensures ReasonsOf(evs + [e]) == ReasonsOf(evs) + {e.reason}
  {
    assert forall x :: x in evs + [e] <==> x in evs || x == e;
  }

  method AnnotateGroup(idx: CausedBy, g: GroupId, evs: seq<NormalizedEvent>) returns (out: seq<CorrelatedEvent>)
    ensures out == Annotate(idx, g, evs)
  {
    var seen: set<string> := {};
    out := [];
    for i := 0 to |evs|
      invariant seen == ReasonsOf(evs[..i])
      invariant out == Annotate(idx, g, evs[..i])
    {
      var e := evs[i];
      var cause := KnownCause(idx, e.reason, seen);
      out := out + [CorrelatedEvent(e, g, cause, cause == "")];
      assert evs[..i + 1] == evs[..i] + [e];
      AnnotateAppend(idx, g, evs[..i], e);
      ReasonsAppend(evs[..i], e);
      seen := seen + {e.reason};
    }
    assert evs[..|evs|] == evs;
  }

  function OfGroup(g: GroupId): NormalizedEvent -> bool {
    (e: NormalizedEvent) => GroupIdFor(e) == g
  }

  function InGroup(g: GroupId, s: seq<NormalizedEvent>): seq<NormalizedEvent> {
    Seqs.Filter(OfGroup(g), s)
  }

  /** A group that occurs holds exactly its events, in order; one that does not is absent. */
  ghost predicate GroupExact(groups: map<GroupId, seq<NormalizedEvent>>, s: seq<NormalizedEvent>, g: GroupId) {
    (if g in groups then groups[g] else []) == InGroup(g, s) && (g in groups ==> groups[g] != [])
  }

  /** `groups` splits `s` by workload, keeping the order within each. */
  ghost predicate SplitsByWorkload(groups: map<GroupId, seq<NormalizedEvent>>, s: seq<NormalizedEvent>) {
    forall g :: GroupExact(groups, s, g)
  }

  lemma SplitStep(groups: map<GroupId, seq<NormalizedEvent>>, s: seq<NormalizedEvent>, e: NormalizedEvent)
    requires SplitsByWorkload(groups, s)
    ensures var g := GroupIdFor(e);
            SplitsByWorkload(groups[g := (if g in groups then groups[g] else []) + [e]], s + [e])
  {
    var own := GroupIdFor(e);
    var groups' := groups[own := (if own in groups then groups[own] else []) + [e]];
    forall g
      ensures GroupExact(groups', s + [e], g)
    {
      assert GroupExact(groups, s, g);
      Seqs.FilterAppend(OfGroup(g), s, e);
    }
  }

  method GroupByWorkload(evs: seq<NormalizedEvent>) returns (groups: map<GroupId, seq<NormalizedEvent>>)
    ensures SplitsByWorkload(groups, evs)
  {
    groups := map[];
    var i := 0;
    while i < |evs|
      invariant i <= |evs| && SplitsByWorkload(groups, evs[..i])
    {
      var e := evs[i];
      assert evs[..i + 1] == evs[..i] + [e];
      SplitStep(groups, evs[..i], e);
      var g := GroupIdFor(e);
      groups := groups[g := (if g in groups then groups[g] else []) + [e]];
      i := i + 1;
    }
    assert evs[..i] == evs;
  }

  /** An event annotated with the reasons its own group has shown before it. */
  function AnnotateAt(idx: CausedBy, s: seq<NormalizedEvent>, i: nat): CorrelatedEvent
    requires i < |s|
  {
    var g := GroupIdFor(s[i]);
    AnnotateOne(idx, g, s[i], ReasonsOf(InGroup(g, s[..i])))
  }

  /** The single pass over all events, whatever their group. */
  function AnnotateAll(idx: CausedBy, s: seq<NormalizedEvent>): seq<CorrelatedEvent> {
    seq(|s|, i requires 0 <= i < |s| => AnnotateAt(idx, s, i))
  }

  function Grouped(gs: set<GroupId>): CorrelatedEvent -> bool {
    (ce: CorrelatedEvent) => ce.groupId in gs
  }

  function OfGroups(gs: set<GroupId>, ces: seq<CorrelatedEvent>): seq<CorrelatedEvent> {
    Seqs.Filter(Grouped(gs), ces)
  }

  lemma AnnotateAllAppend(idx: CausedBy, s: seq<NormalizedEvent>, e: NormalizedEvent)
    ensures AnnotateAll(idx, s + [e])
         == AnnotateAll(idx, s) + [AnnotateOne(idx, GroupIdFor(e), e, ReasonsOf(InGroup(GroupIdFor(e), s)))]
  {
    forall i | 0 <= i < |s|
      ensures AnnotateAt(idx, s + [e], i) == AnnotateAt(idx, s, i)
    {
      assert (s + [e])[..i] == s[..i];
    }
    assert (s + [e])[..|s|] == s;
  }

  /** One group of the single pass is that group annotated alone. */
  lemma {:induction false} PassByGroup(idx: CausedBy, g: GroupId, s: seq<NormalizedEvent>)
    ensures OfGroups({g}, AnnotateAll(idx, s)) == Annotate(idx, g, InGroup(g, s))
  {
    if s == [] {
    } else {
      var p, e := s[..|s|-1], s[|s|-1];
      assert s == p + [e];
      PassByGroup(idx, g, p);
      PassStep(idx, g, p, e);
    }
  }

  lemma PassStep(idx: CausedBy, g: GroupId, p: seq<NormalizedEvent>, e: NormalizedEvent)
    requires OfGroups({g}, AnnotateAll(idx, p)) == Annotate(idx, g, InGroup(g, p))
    ensures OfGroups({g}, AnnotateAll(idx, p + [e])) == Annotate(idx, g, InGroup(g, p + [e]))
  {
    AnnotateAllAppend(idx, p, e);
    Seqs.FilterAppend(OfGroup(g), p, e);
    var ce := AnnotateOne(idx, GroupIdFor(e), e, ReasonsOf(InGroup(GroupIdFor(e), p)));
    Seqs.FilterAppend(Grouped({g}), AnnotateAll(idx, p), ce);
    if GroupIdFor(e) == g {
      AnnotateAppend(idx, g, InGroup(g, p), e);
    } else {
      assert InGroup(g, p + [e]) == InGroup(g, p);
      assert OfGroups({g}, AnnotateAll(idx, p) + [ce]) == OfGroups({g}, AnnotateAll(idx, p));
    }
  }

  // ---- a whole run ----

  function Rooted(): CorrelatedEvent -> bool {
    (ce: CorrelatedEvent) => ce.isRootCause
  }

  function RootsOf(ces: seq<CorrelatedEvent>): seq<CorrelatedEvent> {
    Seqs.Filter(Rooted(), ces)
  }

  ghost predicate IsSortOf(s: seq<NormalizedEvent>, evs: seq<NormalizedEvent>) {
    multiset(s) == multiset(evs) && Seqs.Ascending(SeenAt, s)
  }

  /** `tl` is the outcome when the first sort chose `s`; the second sort is free among ties. */
  ghost predicate RunWith(idx: CausedBy, evs: seq<NormalizedEvent>, s: seq<NormalizedEvent>, tl: Timeline) {
    && IsSortOf(s, evs)
    && multiset(tl.events) == multiset(AnnotateAll(idx, s))
    && Seqs.Ascending(CorrelatedAt, tl.events)
    && tl.rootCauses == RootsOf(tl.events)
  }

  ghost predicate IsRun(idx: CausedBy, evs: seq<NormalizedEvent>, tl: Timeline) {
    exists s :: RunWith(idx, evs, s, tl)
  }

  method Correlate(idx: CausedBy, evs: seq<NormalizedEvent>) returns (tl: Timeline)
    ensures IsRun(idx, evs, tl)
  {
    if |evs| == 0 {
      tl := Timeline([], []);
      assert RunWith(idx, evs, [], tl);
      return;
    }
    var sorted := Seqs.SortSlice(evs, SeenAt);
    var all := AnnotateGroups(idx, sorted);
    all := Seqs.SortSlice(all, CorrelatedAt);
    var roots := CollectRoots(all);
    tl := Timeline(all, roots);
    assert RunWith(idx, evs, sorted, tl);
  }

  method CollectRoots(all: seq<CorrelatedEvent>) returns (roots: seq<CorrelatedEvent>)
    ensures roots == RootsOf(all)
  {
    roots := [];
    for i := 0 to |all|
      invariant roots == RootsOf(all[..i])
    {
      assert all[..i + 1][..i] == all[..i];
      if all[i].isRootCause {
        roots := roots + [all[i]];
      }
    }
    assert all[..|all|] == all;
  }

  /** Group, annotate every group and flatten, walking both maps in whatever order. */
  method AnnotateGroups(idx: CausedBy, sorted: seq<NormalizedEvent>) returns (all: seq<CorrelatedEvent>)
    ensures multiset(all) == multiset(AnnotateAll(idx, sorted))
  {
    var groups := GroupByWorkload(sorted);
    var annotated: map<GroupId, seq<CorrelatedEvent>> := map[];
    var todo := groups.Keys;
    while todo != {}
      invariant annotated.Keys + todo == groups.Keys && annotated.Keys !! todo
      invariant forall g :: g in annotated ==> annotated[g] == OfGroups({g}, AnnotateAll(idx, sorted))
      decreases todo
    {
      var g :| g in todo;
      assert GroupExact(groups, sorted, g);
      var ces := AnnotateGroup(idx, g, groups[g]);
      PassByGroup(idx, g, sorted);
      annotated := annotated[g := ces];
      todo := todo - {g};
    }
    all := Flatten(annotated, AnnotateAll(idx, sorted));
    forall ce | ce in AnnotateAll(idx, sorted)
      ensures ce.groupId in annotated.Keys
    {
      PassGroups(idx, sorted, ce);
      Seqs.FilterMember(OfGroup(ce.groupId), sorted, ce.event);
      assert GroupExact(groups, sorted, ce.groupId);
    }
    Seqs.FilterAll(Grouped(annotated.Keys), AnnotateAll(idx, sorted));
  }

  lemma PassGroups(idx: CausedBy, s: seq<NormalizedEvent>, ce: CorrelatedEvent)
    requires ce in AnnotateAll(idx, s)
    ensures ce.event in s && ce.groupId == GroupIdFor(ce.event)
  {
    var i :| 0 <= i < |s| && AnnotateAll(idx, s)[i] == ce;
  }

  method Flatten(annotated: map<GroupId, seq<CorrelatedEvent>>, ghost pass: seq<CorrelatedEvent>)
    returns (all: seq<CorrelatedEvent>)
    requires forall g :: g in annotated ==> annotated[g] == OfGroups({g}, pass)
    ensures multiset(all) == multiset(OfGroups(annotated.Keys, pass))
  {
    all := [];
    var todo := annotated.Keys;
    ghost var done: set<GroupId> := {};
    Seqs.FilterNone(Grouped({}), pass);
    while todo != {}
      invariant done + todo == annotated.Keys && done !! todo
      invariant multiset(all) == multiset(OfGroups(done, pass))
      decreases todo
    {
      var g :| g in todo;
      Seqs.FilterSplit(Grouped(done + {g}), Grouped(done), Grouped({g}), pass);
      all := all + annotated[g];
      todo := todo - {g};
      done := done + {g};
    }
    assert done == annotated.Keys;
  }
}
