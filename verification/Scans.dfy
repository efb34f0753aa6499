/**
  Queries as linear scans of a list of events: the reference against which the indexed
  query, its in-place sort and the namespace summary are proved.
 */
module Scans {
  import opened Events
  import Seqs

  /** Empty fields, a zero `since` and a non-positive limit mean "no constraint". */
  datatype Filter = Filter(namespace: string, objectUid: string, reason: string, since: Time, limit: int)

  predicate MatchesFields(f: Filter, e: NormalizedEvent) {
    && (f.namespace == "" || e.namespace == f.namespace)
    && (f.objectUid == "" || e.objectUid == f.objectUid)
    && (f.reason == "" || e.reason == f.reason)
  }

  predicate MatchesSince(f: Filter, e: NormalizedEvent) {
    f.since == ZERO_TIME || e.lastSeen >= f.since
  }

  predicate Matches(f: Filter, e: NormalizedEvent) {
    MatchesFields(f, e) && MatchesSince(f, e)
  }

  function Matching(f: Filter): NormalizedEvent -> bool {
    (e: NormalizedEvent) => Matches(f, e)
  }

  /** The matching events, in list order. */
  function Scan(f: Filter, s: seq<NormalizedEvent>): seq<NormalizedEvent> {
    Seqs.Filter(Matching(f), s)
  }

  /** Sort key that puts the latest last-seen first. */
  function Age(e: NormalizedEvent): int {
    -e.lastSeen
  }

  ghost predicate NewestFirst(s: seq<NormalizedEvent>) {
    Seqs.Ascending(Age, s)
  }

  /** `r` is an acceptable answer to `f` over the list `live`. */
  ghost predicate Answers(r: seq<NormalizedEvent>, f: Filter, live: seq<NormalizedEvent>) {
    var all := Scan(f, live);
    && NewestFirst(r)
    && multiset(r) <= multiset(all)
    && |r| == (if f.limit > 0 && |all| > f.limit then f.limit else |all|)
    && (f.limit <= 0 || |all| <= f.limit ==> multiset(r) == multiset(all))
    && forall x, y :: x in r && y in multiset(all) - multiset(r) ==> y.lastSeen <= x.lastSeen
  }

  /** What a filter asks of an event, field by field. */
  ghost predicate Selects(f: Filter, e: NormalizedEvent) {
    && (f.namespace == "" || e.namespace == f.namespace)
    && (f.objectUid == "" || e.objectUid == f.objectUid)
    && (f.reason == "" || e.reason == f.reason)
    && (f.since == 0 || e.lastSeen >= f.since)
  }

  /** Field by field, what an answer to `f` holds: nothing else, and all of it when there is no limit. */
  lemma AnswersInFields(r: seq<NormalizedEvent>, f: Filter, live: seq<NormalizedEvent>)
    requires Answers(r, f, live)
    ensures forall e :: e in r ==> Selects(f, e) && e in live
    ensures f.limit <= 0 ==> forall e :: Selects(f, e) && e in live ==> e in r
    ensures forall i, j :: 0 <= i < j < |r| ==> r[i].lastSeen >= r[j].lastSeen
    ensures f.limit > 0 ==> |r| <= f.limit
  {
    var all := Scan(f, live);
    forall e
      ensures e in r ==> e in all
      ensures f.limit <= 0 && e in all ==> e in r
      ensures e in all <==> e in live && Matches(f, e)
    {
      Seqs.FilterMember(Matching(f), live, e);
      assert e in r <==> e in multiset(r);
      assert e in all <==> e in multiset(all);
    }
    forall i, j | 0 <= i < j < |r|
      ensures r[i].lastSeen >= r[j].lastSeen
    {
      assert Age(r[i]) <= Age(r[j]);
    }
  }

  // ---- events picked by position ----

  /** Of the first `n` elements of `s`, those whose id is in `ids`, where element j has id base + j. */
  ghost function Pick(s: seq<NormalizedEvent>, base: nat, ids: set<nat>, n: nat): seq<NormalizedEvent>
    requires n <= |s|
  {
    if n == 0 then []
    else if base + n - 1 in ids then Pick(s, base, ids, n - 1) + [s[n - 1]]
    else Pick(s, base, ids, n - 1)
  }

  lemma {:induction false} PickNone(s: seq<NormalizedEvent>, base: nat, n: nat)
    requires n <= |s|
    ensures Pick(s, base, {}, n) == []
  {
    if n == 0 {
    } else {
      PickNone(s, base, n - 1);
    }
  }

  lemma {:induction false} PickOutside(s: seq<NormalizedEvent>, base: nat, ids: set<nat>, id: nat, n: nat)
    requires n <= |s| && id >= base + n
    ensures Pick(s, base, ids + {id}, n) == Pick(s, base, ids, n)
  {
    if n == 0 {
    } else {
      PickOutside(s, base, ids, id, n - 1);
    }
  }

  lemma {:induction false} PickInsert(s: seq<NormalizedEvent>, base: nat, ids: set<nat>, id: nat, n: nat)
    requires base <= id < base + n && n <= |s| && id !in ids
    ensures Seqs.OneMore(Pick(s, base, ids + {id}, n), Pick(s, base, ids, n), s[id - base])
  {
    var a, b := Pick(s, base, ids + {id}, n), Pick(s, base, ids, n);
    if id == base + n - 1 {
      PickOutside(s, base, ids, id, n - 1);
      Seqs.OneMoreAtEnd(a, b, s[n - 1]);
    } else {
      PickInsert(s, base, ids, id, n - 1);
      if base + n - 1 in ids {
        Seqs.OneMoreBefore(Pick(s, base, ids + {id}, n - 1), Pick(s, base, ids, n - 1), s[id - base], a, b, s[n - 1]);
      }
    }
  }

  lemma {:induction false} PickIsScan(s: seq<NormalizedEvent>, base: nat, ids: set<nat>, f: Filter, n: nat)
    requires n <= |s|
    requires forall j :: 0 <= j < |s| ==> (base + j in ids <==> Matches(f, s[j]))
    ensures Pick(s, base, ids, n) == Scan(f, s[..n])
  {
    if n == 0 {
    } else {
      PickIsScan(s, base, ids, f, n - 1);
      assert s[..n][..n - 1] == s[..n - 1];
    }
  }

  // ---- the hand-written insertion sort ----

  function InsertDesc(s: seq<NormalizedEvent>, x: NormalizedEvent): seq<NormalizedEvent> {
    Seqs.Insert(Age, s, x)
  }

  function SortDesc(s: seq<NormalizedEvent>): seq<NormalizedEvent> {
    Seqs.Sorted(Age, s)
  }

  /** Where the element that sinks from the right comes to rest. */
  lemma {:induction false} InsertDescAt(s: seq<NormalizedEvent>, x: NormalizedEvent, j: nat)
    requires j <= |s|
    requires j == 0 || s[j - 1].lastSeen >= x.lastSeen
    requires forall m :: j <= m < |s| ==> s[m].lastSeen < x.lastSeen
    ensures InsertDesc(s, x) == s[..j] + [x] + s[j..]
  {
    if j == |s| {
    } else {
      InsertDescAt(s[..|s|-1], x, j);
      assert s[..|s|-1][..j] == s[..j];
      assert s[j..] == s[..|s|-1][j..] + [s[|s|-1]];
    }
  }

  lemma SortDescExtend(was: seq<NormalizedEvent>, i: nat, before: seq<NormalizedEvent>, after: seq<NormalizedEvent>)
    requires i < |was| == |before|
    requires before == SortDesc(was[..i]) + was[i..]
    requires after == InsertDesc(before[..i], before[i]) + before[i + 1..]
    ensures after == SortDesc(was[..i + 1]) + was[i + 1..]
  {
    assert before[..i] == SortDesc(was[..i]);
    assert before[i] == was[i];
    assert was[..i + 1][..i] == was[..i];
    assert before[i + 1..] == was[i + 1..];
  }

  method SortByLastSeenDesc(a: array<NormalizedEvent>)
    modifies a
    ensures a[..] == SortDesc(old(a[..]))
  {
    ghost var was := a[..];
    ghost var done := if a.Length == 0 then 0 else 1;
    assert a.Length > 0 ==> was[..1] == [was[0]] && was[..1][..0] == [];
    var i := 1;
    while i < a.Length
      invariant i == done || a.Length == 0
      invariant done <= a.Length
      invariant a[..] == SortDesc(was[..done]) + was[done..]
    {
      ghost var before := a[..];
      SinkInto(a, i);
      SortDescExtend(was, i, before, a[..]);
      i := i + 1;
      done := i;
    }
    assert was[..done] == was;
  }

  /** The inner loop: swap element `i` leftwards past strictly older ones. */
  method SinkInto(a: array<NormalizedEvent>, i: nat)
    requires i < a.Length
    modifies a
    ensures a[..] == InsertDesc(old(a[..i]), old(a[i])) + old(a[i + 1..])
  {
    ghost var s := a[..i];
    ghost var x := a[i];
    var j := i;
    while j > 0 && a[j].lastSeen > a[j - 1].lastSeen
      invariant j <= i
      invariant a[j] == x
      invariant forall m :: 0 <= m < j ==> a[m] == s[m]
      invariant forall m :: j < m <= i ==> a[m] == s[m - 1]
      invariant forall m :: j <= m < i ==> s[m].lastSeen < x.lastSeen
      invariant a[i + 1..] == old(a[i + 1..])
    {
      a[j], a[j - 1] := a[j - 1], a[j];
      j := j - 1;
    }
    Sunk(old(a[..]), a[..], i, j);
  }

  /** Element `i` has sunk to `j`, everything between has moved up by one. */
  lemma Sunk(was: seq<NormalizedEvent>, now: seq<NormalizedEvent>, i: nat, j: nat)
    requires j <= i < |was| == |now|
    requires now[j] == was[i] && (j == 0 || was[j - 1].lastSeen >= was[i].lastSeen)
    requires forall m :: 0 <= m < j ==> now[m] == was[m]
    requires forall m :: j < m <= i ==> now[m] == was[m - 1]
    requires forall m :: j <= m < i ==> was[m].lastSeen < was[i].lastSeen
    requires now[i + 1..] == was[i + 1..]
    ensures now == InsertDesc(was[..i], was[i]) + was[i + 1..]
  {
    var s := was[..i];
    InsertDescAt(s, was[i], j);
    assert now[..i + 1] == s[..j] + [was[i]] + s[j..];
    assert now == now[..i + 1] + now[i + 1..];
  }

  // ---- cutting a sorted list ----

  lemma CutIsNewest(sorted: seq<NormalizedEvent>, n: nat)
    requires NewestFirst(sorted) && n <= |sorted|
    ensures NewestFirst(sorted[..n])
    ensures multiset(sorted) == multiset(sorted[..n]) + multiset(sorted[n..])
    ensures forall x, y :: x in sorted[..n] && y in sorted[n..] ==> y.lastSeen <= x.lastSeen
  {
    assert sorted == sorted[..n] + sorted[n..];
    forall x: NormalizedEvent, y: NormalizedEvent | x in sorted[..n] && y in sorted[n..]
      ensures y.lastSeen <= x.lastSeen
    {
      var i :| 0 <= i < n && sorted[i] == x;
      var j :| 0 <= j < |sorted| - n && sorted[n..][j] == y;
      assert sorted[n + j] == y;
    }
  }

  /** A newest-first arrangement of all matches, cut at the limit, answers the filter. */
  lemma CutAnswers(sorted: seq<NormalizedEvent>, f: Filter, live: seq<NormalizedEvent>)
    requires NewestFirst(sorted) && multiset(sorted) == multiset(Scan(f, live))
    ensures Answers(if f.limit > 0 && |sorted| > f.limit then sorted[..f.limit] else sorted, f, live)
  {
    Seqs.SameLength(sorted, Scan(f, live));
    var n := if f.limit > 0 && |sorted| > f.limit then f.limit else |sorted|;
    CutIsNewest(sorted, n);
    PartsAnswer(sorted[..n], sorted[n..], f, live);
    assert n == |sorted| ==> sorted[..n] == sorted;
  }

  lemma PartsAnswer(r: seq<NormalizedEvent>, rest: seq<NormalizedEvent>, f: Filter, live: seq<NormalizedEvent>)
    requires NewestFirst(r)
    requires multiset(Scan(f, live)) == multiset(r) + multiset(rest)
    requires |r| == if f.limit > 0 && |Scan(f, live)| > f.limit then f.limit else |Scan(f, live)|
    requires forall x, y :: x in r && y in rest ==> y.lastSeen <= x.lastSeen
    ensures Answers(r, f, live)
  {
    var all := Scan(f, live);
    assert multiset(all) - multiset(r) == multiset(rest);
    assert |multiset(all)| == |multiset(r)| + |multiset(rest)|;
    assert |r| == |all| ==> rest == [];
  }

  // ---- totals ----

  /** An event's count if it has the given reason. */
  function CountIf(reason: string): NormalizedEvent -> int {
    (e: NormalizedEvent) => if e.reason == reason then e.count else 0
  }

  /** Sum of the counts of the events with the given reason. */
  function ReasonTotal(s: seq<NormalizedEvent>, reason: string): int {
    Seqs.Sum(CountIf(reason), s)
  }

  /** The same total read off the list from the front, in one pass over everything stored. */
  ghost function TotalIn(live: seq<NormalizedEvent>, namespace: string, since: Time, reason: string): int {
    if live == [] then 0
    else
      var e := live[0];
      TotalIn(live[1..], namespace, since, reason)
      + if (namespace == "" || e.namespace == namespace) && (since == 0 || e.lastSeen >= since) && e.reason == reason
        then e.count else 0
  }

  lemma {:induction false} TotalInIs(live: seq<NormalizedEvent>, namespace: string, since: Time, reason: string)
    ensures ReasonTotal(Scan(Filter(namespace, "", "", since, 0), live), reason) ==
            TotalIn(live, namespace, since, reason)
  {
    var f := Filter(namespace, "", "", since, 0);
    if live == [] {
    } else {
      var e, tail := live[0], live[1..];
      TotalInIs(tail, namespace, since, reason);
      assert live == [e] + tail;
      Seqs.FilterConcat(Matching(f), [e], tail);
      Seqs.FilterAppend(Matching(f), [], e);
      assert [] + [e] == [e];
      Seqs.SumConcat(CountIf(reason), Scan(f, [e]), Scan(f, tail));
      SumOne(Scan(f, [e]), f, e, reason);
    }
  }

  lemma SumOne(s: seq<NormalizedEvent>, f: Filter, e: NormalizedEvent, reason: string)
    requires s == [] + if Matches(f, e) then [e] else []
    ensures ReasonTotal(s, reason) == if Matches(f, e) && e.reason == reason then e.count else 0
  {
    Seqs.SumAppend(CountIf(reason), [], e);
  }
}
