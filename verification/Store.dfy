/** The fixed-capacity event store: a ring of episode ids, primary storage, burst histories and inverted indexes. */
module EventStore {
  import opened Events
  import opened Episodes
  import opened Windows
  import opened Scans
  import opened Summaries
  import Seqs

  const DEFAULT_MAX_SIZE := 10_000

  ghost function Namespaces(hist: seq<Episode>): seq<string> {
    seq(|hist|, i requires 0 <= i < |hist| => hist[i].opening.namespace)
  }

  ghost function Uids(hist: seq<Episode>): seq<string> {
    seq(|hist|, i requires 0 <= i < |hist| => hist[i].opening.objectUid)
  }

  ghost function Reasons(hist: seq<Episode>): seq<string> {
    seq(|hist|, i requires 0 <= i < |hist| => hist[i].opening.reason)
  }

  /** Primary storage holds exactly the live episodes' current values. */
  ghost predicate StorageExact(byId: map<nat, NormalizedEvent>, hist: seq<Episode>, lo: nat) {
    && (forall i :: i in byId <==> lo <= i < |hist|)
    && (forall i :: lo <= i < |hist| ==> byId[i] == hist[i].Value())
  }

  /** Every map is the exact function of the history and the first live id that it should be. */
  ghost predicate TablesExact(byId: map<nat, NormalizedEvent>, dedup: Histories, evict: map<nat, DedupKey>,
                              byNamespace: Index, byUid: Index, byReason: Index, hist: seq<Episode>, lo: nat)
  {
    && StorageExact(byId, hist, lo)
    && HistoriesExact(dedup, Keys(hist), lo)
    && ReverseExact(evict, dedup)
    && IndexExact(byNamespace, Namespaces(hist), lo)
    && IndexExact(byUid, Uids(hist), lo)
    && IndexExact(byReason, Reasons(hist), lo)
  }

  lemma ColumnsAppend(hist: seq<Episode>, e: NormalizedEvent)
    ensures var hist' := hist + [Episode(e, [])];
            && Keys(hist') == Keys(hist) + [KeyOf(e)]
            && Namespaces(hist') == Namespaces(hist) + [e.namespace]
            && Uids(hist') == Uids(hist) + [e.objectUid]
            && Reasons(hist') == Reasons(hist) + [e.reason]
  {
  }

  lemma ColumnsUpdate(hist: seq<Episode>, i: nat, e: NormalizedEvent)
    requires i < |hist|
    ensures var hist' := hist[i := hist[i].Extend(e)];
            Keys(hist') == Keys(hist) && Namespaces(hist') == Namespaces(hist)
            && Uids(hist') == Uids(hist) && Reasons(hist') == Reasons(hist)
  {
  }

  lemma StorageUpdate(byId: map<nat, NormalizedEvent>, hist: seq<Episode>, lo: nat, i: nat, e: NormalizedEvent)
    requires StorageExact(byId, hist, lo) && lo <= i < |hist|
    ensures StorageExact(byId[i := MergeInto(byId[i], e)], hist[i := hist[i].Extend(e)], lo)
  {
    hist[i].ExtendValue(e);
  }

  lemma StorageAppend(byId: map<nat, NormalizedEvent>, hist: seq<Episode>, lo: nat, e: NormalizedEvent)
    requires StorageExact(byId, hist, lo) && lo <= |hist|
    ensures StorageExact(byId[|hist| := e], hist + [Episode(e, [])], lo)
  {
    assert Episode(e, []).Value() == e;
  }

  lemma StorageForget(byId: map<nat, NormalizedEvent>, hist: seq<Episode>, lo: nat)
    requires StorageExact(byId, hist, lo) && lo < |hist|
    ensures StorageExact(byId - {lo}, hist, lo + 1)
    ensures byId[lo].namespace == Namespaces(hist)[lo] && byId[lo].objectUid == Uids(hist)[lo]
            && byId[lo].reason == Reasons(hist)[lo]
  {
    hist[lo].ValueFrame();
  }

  lemma StoredKeys(byId: map<nat, NormalizedEvent>, hist: seq<Episode>, lo: nat, k: DedupKey)
    requires StorageExact(byId, hist, lo)
    ensures (set id | id in byId && KeyOf(byId[id]) == k) == set i: nat | lo <= i < |hist| && Keys(hist)[i] == k
  {
    forall id | id in byId
      ensures KeyOf(byId[id]) == Keys(hist)[id]
    {
      hist[id].ValueFrame();
    }
  }

  /** The events stored under the ids from `lo` up to `hi`. */
  ghost function Listed(stored: map<nat, NormalizedEvent>, lo: nat, hi: nat): (r: seq<NormalizedEvent>)
    requires lo <= hi && forall id :: lo <= id < hi ==> id in stored
    ensures |r| == hi - lo && forall j :: 0 <= j < hi - lo ==> r[j] == stored[lo + j]
  {
    seq(hi - lo, j requires 0 <= j < hi - lo => stored[lo + j])
  }

  lemma ListedIsLive(byId: map<nat, NormalizedEvent>, hist: seq<Episode>, cap: nat)
    requires StorageExact(byId, hist, WindowLow(cap, |hist|))
    ensures Listed(byId, WindowLow(cap, |hist|), |hist|) == Live(cap, hist)
  {
  }

  lemma ListedSpans(byId: map<nat, NormalizedEvent>, hist: seq<Episode>, lo: nat)
    requires StorageExact(byId, hist, lo) && lo <= |hist|
    ensures Spans(byId, Listed(byId, lo, |hist|), lo)
  {
  }

  /** The last id of the key's history is always stored, and decides whether `e` updates it. */
  lemma HistoryFindsTarget(byId: map<nat, NormalizedEvent>, dedup: Histories, hist: seq<Episode>, cap: nat,
                           e: NormalizedEvent)
    requires StorageExact(byId, hist, WindowLow(cap, |hist|))
    requires HistoriesExact(dedup, Keys(hist), WindowLow(cap, |hist|))
    requires e.objectUid != ""
    ensures var ids := HistoryOf(dedup, KeyOf(e));
            && (ids != [] ==> ids[|ids| - 1] in byId)
            && Target(cap, hist, e) == if ids != [] && IsSameBurst(e, byId[ids[|ids| - 1]]) then ids[|ids| - 1] else -1
  {
    HistoryFindsLatest(dedup, Keys(hist), WindowLow(cap, |hist|), KeyOf(e));
  }

  /** Index entries and stored events agree on the indexed fields. */
  lemma FieldIds(byId: map<nat, NormalizedEvent>, hist: seq<Episode>, lo: nat, f: Filter)
    requires StorageExact(byId, hist, lo)
    ensures forall id :: id in IdsWith(Namespaces(hist), lo, f.namespace) <==>
            id in byId && byId[id].namespace == f.namespace
    ensures forall id :: id in IdsWith(Uids(hist), lo, f.objectUid) <==> id in byId && byId[id].objectUid == f.objectUid
    ensures forall id :: id in IdsWith(Reasons(hist), lo, f.reason) <==> id in byId && byId[id].reason == f.reason
  {
    forall i | lo <= i < |hist| {
      hist[i].ValueFrame();
    }
  }

  lemma TablesUpdate(byId: map<nat, NormalizedEvent>, dedup: Histories, evict: map<nat, DedupKey>, byNamespace: Index,
                     byUid: Index, byReason: Index, hist: seq<Episode>, lo: nat, i: nat, e: NormalizedEvent)
    requires TablesExact(byId, dedup, evict, byNamespace, byUid, byReason, hist, lo) && lo <= i < |hist|
    ensures TablesExact(byId[i := MergeInto(byId[i], e)], dedup, evict, byNamespace, byUid, byReason,
                        hist[i := hist[i].Extend(e)], lo)
  {
    StorageUpdate(byId, hist, lo, i, e);
    ColumnsUpdate(hist, i, e);
  }

  /** The field-by-field update of the latest episode. */
  method ApplyUpdate(existing: NormalizedEvent, e: NormalizedEvent) returns (latest: NormalizedEvent)
    ensures latest == MergeInto(existing, e)
  {
    latest := existing.(count := e.count);
    if e.lastSeen > latest.lastSeen {
      latest := latest.(lastSeen := e.lastSeen);
      latest := latest.(message := e.message);
    }
    if e.firstSeen != ZERO_TIME && (latest.firstSeen == ZERO_TIME || e.firstSeen < latest.firstSeen) {
      latest := latest.(firstSeen := e.firstSeen);
    }
    if |e.ownerChain| > 0 {
      latest := latest.(ownerChain := e.ownerChain);
    }
  }

  lemma WindowSize(ids: set<nat>, lo: nat, hi: nat)
    requires lo <= hi && forall i :: i in ids <==> lo <= i < hi
    ensures |ids| == hi - lo
    decreases hi - lo
  {
    if lo < hi {
      WindowSize(ids - {lo}, lo + 1, hi);
    } else {
      assert ids == {};
    }
  }

  /** Removes the first occurrence of `id`. */
  method Without(ids: seq<nat>, id: nat) returns (r: seq<nat>)
    ensures id !in ids ==> r == ids
    ensures id in ids ==> exists i :: 0 <= i < |ids| && ids[i] == id && id !in ids[..i] && r == ids[..i] + ids[i + 1..]
  {
    for i := 0 to |ids|
      invariant id !in ids[..i]
    {
      if ids[i] == id {
        return ids[..i] + ids[i + 1..];
      }
    }
    return ids;
  }

  predicate InAll(id: nat, sets: seq<set<nat>>) {
    forall i :: 0 <= i < |sets| ==> id in sets[i]
  }

  lemma InAllAppend(sets: seq<set<nat>>, s: set<nat>)
    ensures forall id :: InAll(id, sets + [s]) <==> InAll(id, sets) && id in s
  {
    forall id | InAll(id, sets + [s])
      ensures InAll(id, sets) && id in s
    {
      assert (sets + [s])[|sets|] == s;
      assert forall i :: 0 <= i < |sets| ==> sets[i] == (sets + [s])[i];
    }
  }

  /** Walks the smallest set and keeps the ids found in all. */
  method Intersect(sets: seq<set<nat>>) returns (result: set<nat>)
    ensures sets == [] ==> result == {}
    ensures sets != [] ==> forall id :: id in result <==> InAll(id, sets)
  {
    if |sets| == 0 {
      return {};
    }
    var smallest := sets[0];
    for i := 1 to |sets|
      invariant smallest in sets
    {
      if |sets[i]| < |smallest| {
        smallest := sets[i];
      }
    }
    result := {};
    var todo := smallest;
    while todo != {}
      invariant todo <= smallest
      invariant forall id :: id in result <==> id in smallest - todo && InAll(id, sets)
      decreases todo
    {
      var id :| id in todo;
      var inAll := true;
      var k := 0;
      while k < |sets| && inAll
        invariant 0 <= k <= |sets|
        invariant inAll <==> forall i :: 0 <= i < k ==> id in sets[i]
      {
        inAll := id in sets[k];
        k := k + 1;
      }
      if inAll {
        result := result + {id};
      }
      todo := todo - {id};
    }
  }

  /** Ids lo, lo + 1, ... hold the listed events, and nothing else is stored. */
  ghost predicate Spans(byId: map<nat, NormalizedEvent>, live: seq<NormalizedEvent>, lo: nat) {
    && (forall id :: id in byId <==> lo <= id < lo + |live|)
    && (forall j :: 0 <= j < |live| ==> byId[lo + j] == live[j])
  }

  /** Exactly the stored ids whose events match every indexed field that is set. */
  ghost predicate AreCandidates(ids: set<nat>, byId: map<nat, NormalizedEvent>, f: Filter) {
    forall id :: id in ids <==> id in byId && MatchesFields(f, byId[id])
  }

  /** The candidates that also pass the time bound, in whatever order the set is walked. */
  method Collect(byId: map<nat, NormalizedEvent>, f: Filter, candidates: set<nat>, ghost live: seq<NormalizedEvent>,
                 ghost lo: nat)
    returns (out: seq<NormalizedEvent>)
    requires Spans(byId, live, lo) && AreCandidates(candidates, byId, f)
    ensures multiset(out) == multiset(Scan(f, live))
  {
    out := [];
    var todo := candidates;
    ghost var kept: set<nat> := {};
    PickNone(live, lo, |live|);
    while todo != {}
      invariant todo <= candidates && kept <= candidates - todo
      invariant forall id :: id in candidates - todo ==> (id in kept <==> MatchesSince(f, byId[id]))
      invariant multiset(out) == multiset(Pick(live, lo, kept, |live|))
      decreases todo
    {
      var id :| id in todo;
      assert byId[id] == live[id - lo] by {
        assert byId[lo + (id - lo)] == live[id - lo];
      }
      if id in byId && !(f.since != ZERO_TIME && byId[id].lastSeen < f.since) {
        PickInsert(live, lo, kept, id, |live|);
        out := out + [byId[id]];
        kept := kept + {id};
      }
      todo := todo - {id};
    }
    assert forall j :: 0 <= j < |live| ==> byId[lo + j] == live[j];
    PickIsScan(live, lo, kept, f, |live|);
    assert live[..|live|] == live;
  }

  /** Sort and cut a collection of matches. */
  method Arrange(found: seq<NormalizedEvent>, f: Filter, ghost live: seq<NormalizedEvent>)
    returns (r: seq<NormalizedEvent>)
    requires multiset(found) == multiset(Scan(f, live))
    ensures Answers(r, f, live)
  {
    var a := new NormalizedEvent[|found|](i requires 0 <= i < |found| => found[i]);
    assert a[..] == found;
    SortByLastSeenDesc(a);
    Seqs.SortedOrders(Age, found);
    r := a[..];
    CutAnswers(r, f, live);
    if f.limit > 0 && |r| > f.limit {
      r := r[..f.limit];
    }
  }

  class Store {
    const maxSize: nat
    const order: array<nat>
    var head: nat
    var full: bool
    var nextId: nat

    var byId: map<nat, NormalizedEvent>
    var dedupIdx: Histories
    var evictIdx: map<nat, DedupKey>
    var byNamespace: Index
    var byUid: Index
    var byReason: Index

    ghost var hist: seq<Episode>          // every episode ever opened
    ghost var log: seq<NormalizedEvent>   // every event ever added

    /** All structures but the ring, for the window starting at `lo`. */
    ghost predicate Data(lo: nat)
      reads `nextId, `byId, `dedupIdx, `evictIdx, `byNamespace, `byUid, `byReason, `hist
    {
      && nextId == |hist| && lo <= nextId
      && TablesExact(byId, dedupIdx, evictIdx, byNamespace, byUid, byReason, hist, lo)
    }

    ghost function Low(): nat
      reads `nextId
    {
      WindowLow(maxSize, nextId)
    }

    /** The ring holds exactly the live ids. */
    ghost predicate Ring()
      reads `head, `full, `nextId, order
    {
      maxSize > 0 && order.Length == maxSize && RingExact(order[..], head, full, nextId)
    }

    ghost predicate Shape()
      reads `head, `full, `nextId, `byId, `dedupIdx, `evictIdx, `byNamespace, `byUid, `byReason, `hist, order
    {
      Ring() && Data(Low())
    }

    /** All structures are exact, and the history is what the additions so far make it. */
    ghost predicate Valid()
      reads this, order
    {
      Shape() && hist == Replay(maxSize, log)
    }

    /** The stored events, oldest episode first, read off primary storage. */
    ghost function Contents(): seq<NormalizedEvent>
      requires Valid()
      reads this, order
    {
      Listed(byId, Low(), nextId)
    }

    lemma ContentsAreLive()
      requires Valid()
      ensures Contents() == Live(maxSize, hist)
    {
      ListedIsLive(byId, hist, maxSize);
    }

    lemma ContentsSpan()
      requires Valid()
      ensures Spans(byId, Contents(), Low())
    {
      ListedSpans(byId, hist, Low());
    }

    /** The ring is a sliding window over the ids, for every capacity. */
    lemma SlidingWindow()
      requires Valid()
      ensures forall id :: id in byId <==> (if nextId > maxSize then nextId - maxSize else 0) <= id < nextId
      ensures forall id :: id in byId ==> order[id % maxSize] == id
      ensures head == nextId % maxSize && (full <==> nextId >= maxSize)
    {
      forall id | id in byId
        ensures order[id % maxSize] == id
      {
        assert order[..][Slot(id, maxSize)] == id;
      }
    }

    /** A key's burst history is the newest at most five of its live ids, and the reverse map inverts the histories. */
    lemma BurstHistory(k: DedupKey)
      requires Valid() && k.objectUid != ""
      ensures var h, live := HistoryOf(dedupIdx, k), set id | id in byId && KeyOf(byId[id]) == k;
              && Increasing(h) && (forall id :: id in h ==> id in live)
              && |h| == (if |live| < 5 then |live| else 5)
              && (forall id, other :: id in h && other in live && other !in h ==> other < id)
              && (forall id :: id in h <==> id in evictIdx && evictIdx[id] == k)
    {
      HistoryIsNewest(dedupIdx, Keys(hist), Low(), k);
      StoredKeys(byId, hist, Low(), k);
    }

    /** Refinement over whole runs: the store is the bounded list after the same additions. */
    lemma RefinesList()
      requires Valid()
      ensures Contents() == ListReplay(maxSize, log)
    {
      ContentsAreLive();
      ReplayIsListReplay(maxSize, log);
    }

    constructor (size: int)
      ensures Valid() && fresh(order)
      ensures maxSize == if size <= 0 then 10_000 else size
      ensures log == [] && Contents() == []
    {
      var cap: nat := if size <= 0 then DEFAULT_MAX_SIZE else size;
      maxSize := cap;
      order := new nat[cap](_ => 0);
      head, full, nextId := 0, false, 0;
      byId, dedupIdx, evictIdx := map[], map[], map[];
      byNamespace, byUid, byReason := map[], map[], map[];
      hist, log := [], [];
      new;
      SlotSmall(0, maxSize);
      assert forall k :: HistoryExact(dedupIdx, Keys(hist), 0, k);
    }

    method Len() returns (n: nat)
      requires Valid()
      ensures n == |Contents()|
      ensures n == if nextId < maxSize then nextId else maxSize
    {
      WindowSize(byId.Keys, Low(), nextId);
      n := |byId|;
    }

    method Add(e: NormalizedEvent)
      requires Valid()
      modifies this, order
      ensures Valid()
      ensures log == old(log) + [e]
      ensures Contents() == ListAdd(maxSize, old(Contents()), e)
      ensures forall i :: Continues(maxSize, old(hist), e, i) ==> hist == old(hist)[i := old(hist)[i].Extend(e)]
      ensures (forall i :: !Continues(maxSize, old(hist), e, i)) ==> hist == old(hist) + [Episode(e, [])]
    {
      AddExtendsIff(maxSize, log, e);
      RefinesList();
      ReplayAppend(maxSize, log, e);
      Record(e);
      RefinesList();
    }

    method Record(e: NormalizedEvent)
      requires Valid()
      modifies this, order
      ensures Valid()
      ensures log == old(log) + [e]
    {
      ghost var hist' := Step(maxSize, hist, e);
      assert hist' == Replay(maxSize, log + [e]) by {
        ReplayAppend(maxSize, log, e);
      }
      Upsert(e);
      log := log + [e];
    }

    method Upsert(e: NormalizedEvent)
      requires Shape()
      modifies `head, `full, `nextId, `byId, `dedupIdx, `evictIdx, `byNamespace, `byUid, `byReason, `hist, order
      ensures Shape()
      ensures hist == Step(maxSize, old(hist), e)
    {
      var updated := UpdateLatest(e);
      if !updated {
        Insert(e);
      }
    }

    /** The in-place path of `Add`. */
    method UpdateLatest(e: NormalizedEvent) returns (updated: bool)
      requires Shape()
      modifies this`byId, this`hist
      ensures Shape()
      ensures updated <==> Target(maxSize, old(hist), e) >= 0
      ensures hist == if updated then Step(maxSize, old(hist), e) else old(hist)
    {
      updated := false;
      if e.objectUid != "" {
        var key := KeyOf(e);
        HistoryFindsTarget(byId, dedupIdx, hist, maxSize, e);
        var ids := HistoryOf(dedupIdx, key);
        if |ids| > 0 {
          var last := ids[|ids| - 1];
          if last in byId && IsSameBurst(e, byId[last]) {
            var latest := ApplyUpdate(byId[last], e);
            TablesUpdate(byId, dedupIdx, evictIdx, byNamespace, byUid, byReason, hist, Low(), last, e);
            byId := byId[last := latest];
            hist := hist[last := hist[last].Extend(e)];
            updated := true;
          }
        }
      }
    }

    /** The insert path of `Add`: evict when the ring is full, then append. */
    method Insert(e: NormalizedEvent)
      requires Shape()
      modifies `head, `full, `nextId, `byId, `dedupIdx, `evictIdx, `byNamespace, `byUid, `byReason, `hist, order
      ensures Shape()
      ensures hist == old(hist) + [Episode(e, [])]
    {
      MakeRoom();
      Enter(e);
    }

    method Enter(e: NormalizedEvent)
      requires Ring() && Data(WindowLow(maxSize, nextId + 1))
      modifies `head, `full, `nextId, `byId, `dedupIdx, `evictIdx, `byNamespace, `byUid, `byReason, `hist, order
      ensures Shape()
      ensures hist == old(hist) + [Episode(e, [])]
    {
      var id := nextId;
      Push(id);
      Append(e, id, WindowLow(maxSize, nextId + 1));
    }

    method MakeRoom()
      requires Shape()
      modifies `byId, `dedupIdx, `evictIdx, `byNamespace, `byUid, `byReason
      ensures Data(WindowLow(maxSize, nextId + 1))
    {
      if full {
        RingOldest(order[..], head, full, nextId);
        Evict(order[head], Low());
      }
    }

    /** Write the next ring slot and advance the head. */
    method Push(id: nat)
      requires order.Length == maxSize && RingExact(order[..], head, full, id)
      modifies order, this`head, this`full
      ensures RingExact(order[..], head, full, id + 1)
    {
      RingPush(order[..], head, full, id);
      ghost var next := order[..][head := id];
      order[head] := id;
      assert order[..] == next;
      head := (head + 1) % maxSize;
      if head == 0 {
        full := true;
      }
    }

    method Append(e: NormalizedEvent, id: nat, ghost lo: nat)
      requires Data(lo) && id == nextId
      modifies this`nextId, this`byId, this`dedupIdx, this`evictIdx, this`byNamespace, this`byUid, this`byReason,
               this`hist
      ensures nextId == id + 1
      ensures hist == old(hist) + [Episode(e, [])] && Data(lo)
    {
      ColumnsAppend(hist, e);
      StorageAppend(byId, hist, lo, e);
      nextId := nextId + 1;
      byId := byId[id := e];
      Track(e, id, lo);
      IndexEvent(e, id, lo);
      hist := hist + [Episode(e, [])];
    }

    /** Record a new episode in its key's burst history, forgetting the oldest beyond five. */
    method Track(e: NormalizedEvent, id: nat, ghost lo: nat)
      requires lo <= id == |hist|
      requires HistoriesExact(dedupIdx, Keys(hist), lo) && ReverseExact(evictIdx, dedupIdx)
      modifies this`dedupIdx, this`evictIdx
      ensures HistoriesExact(dedupIdx, Keys(hist) + [KeyOf(e)], lo) && ReverseExact(evictIdx, dedupIdx)
    {
      HistoriesPush(dedupIdx, Keys(hist), lo, KeyOf(e));
      if e.objectUid != "" {
        var key := KeyOf(e);
        ReversePush(dedupIdx, evictIdx, Keys(hist), lo, key);
        var ids := HistoryOf(dedupIdx, key) + [id];
        if |ids| > MAX_BURSTS_PER_KEY {
          evictIdx := evictIdx - {ids[0]};
          ids := ids[1..];
        }
        dedupIdx := dedupIdx[key := ids];
        evictIdx := evictIdx[id := key];
      }
    }

    method IndexEvent(e: NormalizedEvent, id: nat, ghost lo: nat)
      requires lo <= id == |hist|
      requires IndexExact(byNamespace, Namespaces(hist), lo) && IndexExact(byUid, Uids(hist), lo)
               && IndexExact(byReason, Reasons(hist), lo)
      modifies this`byNamespace, this`byUid, this`byReason
      ensures IndexExact(byNamespace, Namespaces(hist) + [e.namespace], lo)
      ensures IndexExact(byUid, Uids(hist) + [e.objectUid], lo)
      ensures IndexExact(byReason, Reasons(hist) + [e.reason], lo)
    {
      AddToIndexExact(byNamespace, Namespaces(hist), lo, e.namespace);
      AddToIndexExact(byUid, Uids(hist), lo, e.objectUid);
      AddToIndexExact(byReason, Reasons(hist), lo, e.reason);
      byNamespace := AddToIndex(byNamespace, e.namespace, id);
      byUid := AddToIndex(byUid, e.objectUid, id);
      byReason := AddToIndex(byReason, e.reason, id);
    }

    /** Remove an id from every structure; an id that is not stored is ignored. */
    method Evict(id: nat, ghost lo: nat)
      requires Data(lo) && (id == lo || id !in byId)
      modifies this`byId, this`dedupIdx, this`evictIdx, this`byNamespace, this`byUid, this`byReason
      ensures old(id in byId) ==> Data(lo + 1)
      ensures old(id !in byId) ==>
              && Data(lo) && byId == old(byId) && dedupIdx == old(dedupIdx) && evictIdx == old(evictIdx)
              && byNamespace == old(byNamespace) && byUid == old(byUid) && byReason == old(byReason)
    {
      if id !in byId {
        return;
      }
      var e := byId[id];
      StorageForget(byId, hist, lo);
      Untrack(id, lo);
      RemoveFromIndexExact(byNamespace, Namespaces(hist), lo);
      RemoveFromIndexExact(byUid, Uids(hist), lo);
      RemoveFromIndexExact(byReason, Reasons(hist), lo);
      byNamespace := RemoveFromIndex(byNamespace, e.namespace, id);
      byUid := RemoveFromIndex(byUid, e.objectUid, id);
      byReason := RemoveFromIndex(byReason, e.reason, id);
      byId := byId - {id};
    }

    /** Clean up the burst history of an evicted id. */
    method Untrack(id: nat, ghost lo: nat)
      requires id == lo < |hist|
      requires HistoriesExact(dedupIdx, Keys(hist), lo) && ReverseExact(evictIdx, dedupIdx)
      modifies this`dedupIdx, this`evictIdx
      ensures HistoriesExact(dedupIdx, Keys(hist), lo + 1) && ReverseExact(evictIdx, dedupIdx)
    {
      HistoriesForget(dedupIdx, Keys(hist), lo);
      OldestTracked(dedupIdx, evictIdx, Keys(hist), lo);
      if id in evictIdx {
        ReverseForget(dedupIdx, evictIdx, Keys(hist), lo);
        var key := evictIdx[id];
        OldestIsFront(dedupIdx, Keys(hist), lo);
        var ids := Without(HistoryOf(dedupIdx, key), id);
        assert ids == HistoryOf(dedupIdx, key)[1..];
        if |ids| == 0 {
          dedupIdx := dedupIdx - {key};
        } else {
          dedupIdx := dedupIdx[key := ids];
        }
        evictIdx := evictIdx - {id};
      }
    }

    method CandidateIds(f: Filter) returns (ids: set<nat>)
      requires Data(Low())
      ensures AreCandidates(ids, byId, f)
    {
      FieldIds(byId, hist, Low(), f);
      IndexLookup(byNamespace, Namespaces(hist), Low(), f.namespace);
      IndexLookup(byUid, Uids(hist), Low(), f.objectUid);
      IndexLookup(byReason, Reasons(hist), Low(), f.reason);
      var sets := [];
      if f.namespace != "" {
        var ids := if f.namespace in byNamespace then byNamespace[f.namespace] else {};
        InAllAppend(sets, ids);
        sets := sets + [ids];
      }
      if f.objectUid != "" {
        var ids := if f.objectUid in byUid then byUid[f.objectUid] else {};
        InAllAppend(sets, ids);
        sets := sets + [ids];
      }
      if f.reason != "" {
        var ids := if f.reason in byReason then byReason[f.reason] else {};
        InAllAppend(sets, ids);
        sets := sets + [ids];
      }
      if |sets| == 0 {
        ids := byId.Keys;
      } else {
        ids := Intersect(sets);
      }
    }

    /** Indexed lookup, in-place sort and limit: an answer to the same filter over a linear scan. */
    method Query(f: Filter) returns (r: seq<NormalizedEvent>)
      requires Valid()
      ensures Answers(r, f, Contents())
      ensures forall e :: e in r ==> Selects(f, e) && e in Contents()
      ensures f.limit <= 0 ==> forall e :: Selects(f, e) && e in Contents() ==> e in r
    {
      ghost var live := Contents();
      var found := FindMatches(f);
      r := Arrange(found, f, live);
      assert Valid();
      assert Contents() == live;
      AnswersInFields(r, f, live);
    }

    method FindMatches(f: Filter) returns (found: seq<NormalizedEvent>)
      requires Valid()
      ensures multiset(found) == multiset(Scan(f, Contents()))
    {
      ContentsSpan();
      var candidates := CandidateIds(f);
      found := Collect(byId, f, candidates, Contents(), Low());
    }

    method SummarizeNamespace(namespace: string, since: Time) returns (rows: seq<NamespaceSummary>)
      requires Valid()
      ensures SummaryExact(rows, Scan(Filter(namespace, "", "", since, 0), Contents()))
      ensures forall row :: row in rows ==> RowInFields(row, Contents(), namespace, since)
    {
      var f := Filter(namespace, "", "", since, 0);
      var evs := Query(f);
      var groups := GroupByReason(evs);
      rows := Rows(groups);
      RendersAll(rows, groups, evs);
      SummaryPermuted(rows, evs, Scan(f, Contents()));
      RowsInFields(rows, Contents(), namespace, since);
    }
  }
}
