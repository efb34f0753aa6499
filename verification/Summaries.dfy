/** Per-reason summaries of a list of events. */
module Summaries {
  import opened Events
  import opened Scans
  import Seqs

  datatype NamespaceSummary = NamespaceSummary(reason: string, totalCount: Int32, objects: seq<string>, lastSeen: Time)

  datatype Group = Group(count: Int32, objects: set<string>, lastSeen: Time)

  ghost function ObjectNames(evs: seq<NormalizedEvent>, reason: string): set<string> {
    set e | e in evs && e.reason == reason :: e.objectName
  }

  /** The latest last-seen of the reason's events, never before the zero time. */
  ghost predicate IsLatest(t: Time, evs: seq<NormalizedEvent>, reason: string) {
    && t >= ZERO_TIME
    && (forall e :: e in evs && e.reason == reason ==> e.lastSeen <= t)
    && (t == ZERO_TIME || exists e :: e in evs && e.reason == reason && e.lastSeen == t)
  }

  ghost predicate GroupExact(g: Group, evs: seq<NormalizedEvent>, reason: string) {
    && g.count == Wrap32(ReasonTotal(evs, reason))
    && g.objects == ObjectNames(evs, reason)
    && IsLatest(g.lastSeen, evs, reason)
  }

  ghost predicate Occurs(evs: seq<NormalizedEvent>, reason: string) {
    exists e :: e in evs && e.reason == reason
  }

  /** A reason has a group exactly when it occurs, and that group is exact. */
  ghost predicate ReasonExact(groups: map<string, Group>, evs: seq<NormalizedEvent>, reason: string) {
    && (reason in groups <==> Occurs(evs, reason))
    && (reason in groups ==> GroupExact(groups[reason], evs, reason))
  }

  ghost predicate GroupsExact(groups: map<string, Group>, evs: seq<NormalizedEvent>) {
    forall r :: ReasonExact(groups, evs, r)
  }

  ghost predicate NoDuplicates<T>(s: seq<T>) {
    forall i, j :: 0 <= i < j < |s| ==> s[i] != s[j]
  }

  ghost function Distinct(s: seq<string>): set<string> {
    set o | o in s
  }

  ghost predicate RowExact(row: NamespaceSummary, evs: seq<NormalizedEvent>) {
    && NoDuplicates(row.objects)
    && GroupExact(Group(row.totalCount, Distinct(row.objects), row.lastSeen), evs, row.reason)
  }

  ghost predicate HasRow(rows: seq<NamespaceSummary>, reason: string) {
    exists row :: row in rows && row.reason == reason
  }

  /** One row for each reason that occurs, with exact total, object names and latest time. */
  ghost predicate SummaryExact(rows: seq<NamespaceSummary>, evs: seq<NormalizedEvent>) {
    && (forall i, j :: 0 <= i < j < |rows| ==> rows[i].reason != rows[j].reason)
    && (forall r :: Occurs(evs, r) <==> HasRow(rows, r))
    && (forall i :: 0 <= i < |rows| ==> RowExact(rows[i], evs))
  }

  lemma SummaryPermuted(rows: seq<NamespaceSummary>, a: seq<NormalizedEvent>, b: seq<NormalizedEvent>)
    requires SummaryExact(rows, a) && multiset(a) == multiset(b)
    ensures SummaryExact(rows, b)
  {
    assert forall e :: (e in a <==> e in multiset(a)) && (e in b <==> e in multiset(b));
    assert forall e :: e in a <==> e in b;
    forall r
      ensures Occurs(a, r) <==> Occurs(b, r)
      ensures ReasonTotal(a, r) == ReasonTotal(b, r)
      ensures ObjectNames(a, r) == ObjectNames(b, r)
    {
      Seqs.SumPermuted(CountIf(r), a, b);
    }
    forall i | 0 <= i < |rows|
      ensures IsLatest(rows[i].lastSeen, b, rows[i].reason)
    {
      assert IsLatest(rows[i].lastSeen, a, rows[i].reason);
    }
  }

  /** Field by field, what a row says of the events stored in a namespace since a time. */
  ghost predicate RowInFields(row: NamespaceSummary, live: seq<NormalizedEvent>, namespace: string, since: Time) {
    && row.totalCount == Wrap32(TotalIn(live, namespace, since, row.reason))
    && (forall name :: name in row.objects <==>
          exists e :: InRow(e, row.reason, live, namespace, since) && e.objectName == name)
    && (forall e :: InRow(e, row.reason, live, namespace, since) ==> e.lastSeen <= row.lastSeen)
    && (row.lastSeen == 0 || exists e :: InRow(e, row.reason, live, namespace, since) && e.lastSeen == row.lastSeen)
  }

  ghost predicate InRow(e: NormalizedEvent, reason: string, live: seq<NormalizedEvent>, namespace: string,
                        since: Time)
  {
    && e in live && e.reason == reason
    && (namespace == "" || e.namespace == namespace)
    && (since == 0 || e.lastSeen >= since)
  }

  lemma RowsInFields(rows: seq<NamespaceSummary>, live: seq<NormalizedEvent>, namespace: string, since: Time)
    requires SummaryExact(rows, Scan(Filter(namespace, "", "", since, 0), live))
    ensures forall row :: row in rows ==> RowInFields(row, live, namespace, since)
  {
    var scan := Scan(Filter(namespace, "", "", since, 0), live);
    forall row | row in rows
      ensures RowInFields(row, live, namespace, since)
    {
      var i :| 0 <= i < |rows| && rows[i] == row;
      assert RowExact(rows[i], scan);
      ExactRowInFields(row, live, namespace, since);
    }
  }

  lemma ExactRowInFields(row: NamespaceSummary, live: seq<NormalizedEvent>, namespace: string, since: Time)
    requires RowExact(row, Scan(Filter(namespace, "", "", since, 0), live))
    ensures RowInFields(row, live, namespace, since)
  {
    var f := Filter(namespace, "", "", since, 0);
    var scan := Scan(f, live);
    TotalInIs(live, namespace, since, row.reason);
    forall e
      ensures InRow(e, row.reason, live, namespace, since) <==> e in scan && e.reason == row.reason
    {
      Seqs.FilterMember(Matching(f), live, e);
    }
    forall name
      ensures name in row.objects <==> name in ObjectNames(scan, row.reason)
    {
      assert name in row.objects <==> name in Distinct(row.objects);
    }
  }

  function EmptyGroup(): Group {
    Group(0, {}, ZERO_TIME)
  }

  lemma FreshGroup(evs: seq<NormalizedEvent>, reason: string)
    requires !Occurs(evs, reason)
    ensures GroupExact(EmptyGroup(), evs, reason)
  {
    Seqs.SumZero(CountIf(reason), evs);
    assert ObjectNames(evs, reason) == {};
  }

  function Accumulate(g: Group, e: NormalizedEvent): Group {
    Group(Wrap32(g.count + e.count), g.objects + {e.objectName},
          if e.lastSeen > g.lastSeen then e.lastSeen else g.lastSeen)
  }

  lemma NamesAppend(evs: seq<NormalizedEvent>, e: NormalizedEvent, reason: string)
    ensures ObjectNames(evs + [e], reason) ==
            ObjectNames(evs, reason) + if e.reason == reason then {e.objectName} else {}
  {
    assert forall x :: x in evs + [e] <==> x in evs || x == e;
  }

  lemma LatestAppend(t: Time, evs: seq<NormalizedEvent>, e: NormalizedEvent, reason: string)
    requires IsLatest(t, evs, reason)
    ensures IsLatest(if e.reason == reason && e.lastSeen > t then e.lastSeen else t, evs + [e], reason)
  {
    assert forall x :: x in evs + [e] <==> x in evs || x == e;
  }

  lemma TotalStep(total: int, count: Int32, total': int, e: NormalizedEvent)
    requires count == Wrap32(total) && total' == total + e.count
    ensures Wrap32(count + e.count) == Wrap32(total')
  {
    WrapAdd(total, e.count);
  }

  lemma GroupStep(g: Group, evs: seq<NormalizedEvent>, e: NormalizedEvent)
    requires GroupExact(g, evs, e.reason)
    ensures GroupExact(Accumulate(g, e), evs + [e], e.reason)
  {
    Seqs.SumAppend(CountIf(e.reason), evs, e);
    TotalStep(ReasonTotal(evs, e.reason), g.count, ReasonTotal(evs + [e], e.reason), e);
    NamesAppend(evs, e, e.reason);
    LatestAppend(g.lastSeen, evs, e, e.reason);
  }

  lemma GroupSkip(g: Group, evs: seq<NormalizedEvent>, e: NormalizedEvent, reason: string)
    requires GroupExact(g, evs, reason) && e.reason != reason
    ensures GroupExact(g, evs + [e], reason)
  {
    Seqs.SumAppend(CountIf(reason), evs, e);
    NamesAppend(evs, e, reason);
    LatestAppend(g.lastSeen, evs, e, reason);
  }

  method AccumulateInto(group: Group, e: NormalizedEvent) returns (g: Group)
    ensures g == Accumulate(group, e)
  {
    g := group.(count := Wrap32(group.count + e.count));
    g := g.(objects := g.objects + {e.objectName});
    if e.lastSeen > g.lastSeen {
      g := g.(lastSeen := e.lastSeen);
    }
  }

  method GroupByReason(evs: seq<NormalizedEvent>) returns (groups: map<string, Group>)
    ensures GroupsExact(groups, evs)
  {
    groups := map[];
    var n := 0;
    while n < |evs|
      invariant n <= |evs| && GroupsExact(groups, evs[..n])
    {
      var e := evs[n];
      assert evs[..n + 1] == evs[..n] + [e];
      GroupsStep(groups, evs[..n], e);
      var g := AccumulateInto(if e.reason in groups then groups[e.reason] else EmptyGroup(), e);
      groups := groups[e.reason := g];
      n := n + 1;
    }
    assert evs[..n] == evs;
  }

  lemma ReasonsAppend(evs: seq<NormalizedEvent>, e: NormalizedEvent, reason: string)
    ensures Occurs(evs + [e], reason) <==> Occurs(evs, reason) || reason == e.reason
  {
    if Occurs(evs, reason) {
      var x :| x in evs && x.reason == reason;
      assert x in evs + [e];
    }
    assert e in evs + [e];
  }

  lemma GroupsStep(groups: map<string, Group>, evs: seq<NormalizedEvent>, e: NormalizedEvent)
    requires GroupsExact(groups, evs)
    ensures var g := if e.reason in groups then groups[e.reason] else EmptyGroup();
            GroupsExact(groups[e.reason := Accumulate(g, e)], evs + [e])
  {
    var g := if e.reason in groups then groups[e.reason] else EmptyGroup();
    assert ReasonExact(groups, evs, e.reason);
    if e.reason !in groups {
      FreshGroup(evs, e.reason);
    }
    GroupStep(g, evs, e);
    var groups' := groups[e.reason := Accumulate(g, e)];
    forall r
      ensures ReasonExact(groups', evs + [e], r)
    {
      assert ReasonExact(groups, evs, r);
      ReasonsAppend(evs, e, r);
      if r != e.reason && r in groups {
        GroupSkip(groups[r], evs, e, r);
      }
    }
  }

  /** A set in some order, each element once. */
  method Elements(s: set<string>) returns (r: seq<string>)
    ensures NoDuplicates(r)
    ensures Distinct(r) == s
  {
    r := [];
    var todo := s;
    while todo != {}
      invariant todo <= s && NoDuplicates(r)
      invariant forall o :: o in r <==> o in s - todo
      decreases todo
    {
      var o :| o in todo;
      assert forall i :: 0 <= i < |r| ==> r[i] in r;
      r := r + [o];
      todo := todo - {o};
    }
  }

  /** `rows` renders exactly the groups of the reasons in `done`, each once. */
  ghost predicate Renders(rows: seq<NamespaceSummary>, groups: map<string, Group>, done: set<string>) {
    && (forall i, j :: 0 <= i < j < |rows| ==> rows[i].reason != rows[j].reason)
    && (forall r :: HasRow(rows, r) <==> r in done)
    && (forall row :: row in rows ==>
          row.reason in groups && NoDuplicates(row.objects)
          && Group(row.totalCount, Distinct(row.objects), row.lastSeen) == groups[row.reason])
  }

  lemma RendersAppend(rows: seq<NamespaceSummary>, groups: map<string, Group>, done: set<string>, row: NamespaceSummary)
    requires Renders(rows, groups, done) && row.reason !in done && row.reason in groups && NoDuplicates(row.objects)
    requires Group(row.totalCount, Distinct(row.objects), row.lastSeen) == groups[row.reason]
    ensures Renders(rows + [row], groups, done + {row.reason})
  {
    forall r
      ensures HasRow(rows + [row], r) <==> HasRow(rows, r) || r == row.reason
    {
      if HasRow(rows, r) {
        var x :| x in rows && x.reason == r;
        assert x in rows + [row];
      }
      assert row in rows + [row];
    }
    forall i | 0 <= i < |rows|
      ensures rows[i].reason != row.reason
    {
      assert rows[i] in rows;
      assert HasRow(rows, rows[i].reason);
    }
  }

  lemma RendersAll(rows: seq<NamespaceSummary>, groups: map<string, Group>, evs: seq<NormalizedEvent>)
    requires Renders(rows, groups, groups.Keys) && GroupsExact(groups, evs)
    ensures SummaryExact(rows, evs)
  {
    forall i | 0 <= i < |rows|
      ensures RowExact(rows[i], evs)
    {
      assert rows[i] in rows;
      assert ReasonExact(groups, evs, rows[i].reason);
    }
    forall r
      ensures Occurs(evs, r) <==> HasRow(rows, r)
    {
      assert ReasonExact(groups, evs, r);
    }
  }

  /** The groups as rows, in whatever order the map is walked. */
  method Rows(groups: map<string, Group>) returns (rows: seq<NamespaceSummary>)
    ensures Renders(rows, groups, groups.Keys)
  {
    rows := [];
    var todo := groups.Keys;
    while todo != {}
      invariant todo <= groups.Keys
      invariant Renders(rows, groups, groups.Keys - todo)
      decreases todo
    {
      var reason :| reason in todo;
      var g := groups[reason];
      var objs := Elements(g.objects);
      var row := NamespaceSummary(reason, g.count, objs, g.lastSeen);
      RendersAppend(rows, groups, groups.Keys - todo, row);
      rows := rows + [row];
      assert groups.Keys - (todo - {reason}) == (groups.Keys - todo) + {reason};
      todo := todo - {reason};
    }
    assert groups.Keys - {} == groups.Keys;
  }
}
