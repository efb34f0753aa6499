/**
  The representation of a sliding window over an append-only history: ring slots, capped
  per-key histories with their reverse map, and inverted indexes. Each structure is
  specified as an exact function of the history's columns and the first live position,
  and shown to follow the two moves of the window: forget the oldest, append the newest.
 */
module Windows {
  import opened Events
  import opened Episodes

  // ---- ring ----

  function Slot(i: nat, cap: nat): nat
    requires cap > 0
  {
    i % cap
  }

  lemma MulAtLeast(c: nat, d: int)
    requires d >= 1
    ensures c * d >= c
  {
  }

  lemma MulApart(c: nat, q: int, q': int)
    requires q > q'
    ensures c * q >= c * q' + c
  {
    MulAtLeast(c, q - q');
    assert c * q == c * q' + c * (q - q');
  }

  lemma EuclidUnique(c: nat, q: int, r: nat, q': int, r': nat)
    requires r < c && r' < c && c * q + r == c * q' + r'
    ensures q == q' && r == r'
  {
    if q > q' {
      MulApart(c, q, q');
    } else if q < q' {
      MulApart(c, q', q);
    }
  }

  lemma SlotIs(n: nat, cap: nat, q: int, r: nat)
    requires r < cap && n == cap * q + r
    ensures Slot(n, cap) == r
  {
    EuclidUnique(cap, n / cap, n % cap, q, r);
  }

  lemma SlotNext(n: nat, cap: nat)
    requires cap > 0
    ensures Slot(n + 1, cap) == if Slot(n, cap) + 1 == cap then 0 else Slot(n, cap) + 1
  {
    var q, r := n / cap, n % cap;
    if r + 1 == cap {
      assert cap * (q + 1) == cap * q + cap;
      SlotIs(n + 1, cap, q + 1, 0);
    } else {
      SlotIs(n + 1, cap, q, r + 1);
    }
  }

  lemma SlotPeriod(n: nat, cap: nat)
    requires cap > 0 && n >= cap
    ensures Slot(n - cap, cap) == Slot(n, cap)
  {
    assert cap * (n / cap - 1) == cap * (n / cap) - cap;
    SlotIs(n - cap, cap, n / cap - 1, n % cap);
  }

  lemma SlotDistinct(i: nat, n: nat, cap: nat)
    requires i < n < i + cap
    ensures Slot(i, cap) != Slot(n, cap)
  {
    var q, r := i / cap, i % cap;
    if r + (n - i) < cap {
      SlotIs(n, cap, q, r + (n - i));
    } else {
      assert cap * (q + 1) == cap * q + cap;
      SlotIs(n, cap, q + 1, r + (n - i) - cap);
    }
  }

  lemma SlotSmall(n: nat, cap: nat)
    requires cap > 0
    ensures n < cap ==> Slot(n, cap) == n
    ensures n == cap ==> Slot(n, cap) == 0
  {
    if n < cap {
      SlotIs(n, cap, 0, n);
    } else if n == cap {
      SlotIs(n, cap, 1, 0);
    }
  }

  /** Live ids sit at their own slot, `head` is the next slot, and `full` says the ring has wrapped. */
  ghost predicate RingExact(order: seq<nat>, head: nat, full: bool, nextId: nat) {
    && |order| > 0
    && head == Slot(nextId, |order|)
    && (full <==> nextId >= |order|)
    && forall i :: WindowLow(|order|, nextId) <= i < nextId ==> order[Slot(i, |order|)] == i
  }

  lemma RingPush(order: seq<nat>, head: nat, full: bool, n: nat)
    requires RingExact(order, head, full, n)
    ensures var head' := (head + 1) % |order|;
            RingExact(order[head := n], head', full || head' == 0, n + 1)
  {
    var cap := |order|;
    SlotNext(n, cap);
    SlotSmall(head + 1, cap);
    SlotSmall(n + 1, cap);
    forall i | WindowLow(cap, n + 1) <= i < n + 1
      ensures order[head := n][Slot(i, cap)] == i
    {
      if i < n {
        SlotDistinct(i, n, cap);
      }
    }
  }

  /** In a full ring the slot about to be written holds the oldest live id. */
  lemma RingOldest(order: seq<nat>, head: nat, full: bool, n: nat)
    requires RingExact(order, head, full, n) && full
    ensures order[head] == n - |order|
  {
    SlotPeriod(n, |order|);
    assert order[Slot(n - |order|, |order|)] == n - |order|;
  }

  // ---- inverted indexes ----

  type Index = map<string, set<nat>>

  function AddToIndex(idx: Index, key: string, id: nat): Index {
    if key == "" then idx
    else idx[key := (if key in idx then idx[key] else {}) + {id}]
  }

  function RemoveFromIndex(idx: Index, key: string, id: nat): Index {
    if key in idx then
      var ids := idx[key] - {id};
      if ids == {} then idx - {key} else idx[key := ids]
    else idx
  }

  ghost function IdsWith(vals: seq<string>, lo: nat, v: string): set<nat> {
    set i: nat | lo <= i < |vals| && vals[i] == v
  }

  /** Exactly the live ids under every non-empty value, and no empty sets. */
  ghost predicate IndexExact(idx: Index, vals: seq<string>, lo: nat) {
    && (forall v :: v in idx ==> v != "" && idx[v] != {} && idx[v] == IdsWith(vals, lo, v))
    && (forall i :: lo <= i < |vals| && vals[i] != "" ==> vals[i] in idx)
  }

  lemma AddToIndexExact(idx: Index, vals: seq<string>, lo: nat, x: string)
    requires IndexExact(idx, vals, lo) && lo <= |vals|
    ensures IndexExact(AddToIndex(idx, x, |vals|), vals + [x], lo)
  {
    var idx', vals' := AddToIndex(idx, x, |vals|), vals + [x];
    IndexLookup(idx, vals, lo, x);
    forall v | v in idx'
      ensures v != "" && idx'[v] != {} && idx'[v] == IdsWith(vals', lo, v)
    {
      assert IdsWith(vals', lo, v) == IdsWith(vals, lo, v) + (if v == x then {|vals|} else {});
    }
  }

  lemma RemoveFromIndexExact(idx: Index, vals: seq<string>, lo: nat)
    requires IndexExact(idx, vals, lo) && lo < |vals|
    ensures IndexExact(RemoveFromIndex(idx, vals[lo], lo), vals, lo + 1)
  {
    var idx' := RemoveFromIndex(idx, vals[lo], lo);
    forall v | v in idx'
      ensures v != "" && idx'[v] != {} && idx'[v] == IdsWith(vals, lo + 1, v)
    {
      assert IdsWith(vals, lo + 1, v) == IdsWith(vals, lo, v) - (if v == vals[lo] then {lo} else {});
    }
    forall i | lo + 1 <= i < |vals| && vals[i] != ""
      ensures vals[i] in idx'
    {
      assert i in IdsWith(vals, lo, vals[i]);
      assert i in IdsWith(vals, lo, vals[i]) - {lo};
    }
  }

  lemma IndexLookup(idx: Index, vals: seq<string>, lo: nat, v: string)
    requires IndexExact(idx, vals, lo)
    ensures v != "" ==> (if v in idx then idx[v] else {}) == IdsWith(vals, lo, v)
  {
    if v != "" && v !in idx {
      assert forall i :: i in IdsWith(vals, lo, v) ==> vals[i] in idx;
      assert IdsWith(vals, lo, v) == {};
    }
  }

  // ---- per-key burst histories ----

  /** Positions in [lo, hi) carrying key `k`, oldest first. */
  function KeyIds(keys: seq<DedupKey>, lo: nat, hi: nat, k: DedupKey): seq<nat>
    requires hi <= |keys|
  {
    if hi <= lo then []
    else KeyIds(keys, lo, hi - 1, k) + (if keys[hi - 1] == k then [hi - 1] else [])
  }

  ghost predicate Increasing(s: seq<nat>) {
    forall a, b :: 0 <= a < b < |s| ==> s[a] < s[b]
  }

  lemma IncreasingTail(h: seq<nat>)
    requires Increasing(h) && h != []
    ensures forall id :: id in h[1..] <==> id in h && id != h[0]
  {
    forall id
      ensures id in h[1..] <==> id in h && id != h[0]
    {
      if id in h && id != h[0] {
        var a :| 0 <= a < |h| && h[a] == id;
        assert h[1..][a - 1] == id;
      }
      if id in h[1..] {
        var a :| 0 <= a < |h[1..]| && h[1..][a] == id;
        assert h[a + 1] == id;
      }
    }
  }

  lemma IncreasingAppend(h: seq<nat>, x: nat)
    requires Increasing(h) && forall id :: id in h ==> id < x
    ensures Increasing(h + [x])
    ensures forall id :: id in h + [x] <==> id == x || id in h
  {
    assert forall a :: 0 <= a < |h| ==> h[a] in h;
  }

  /** `s` lists, in increasing order, exactly the positions in [lo, hi) carrying `k`. */
  ghost predicate Lists(s: seq<nat>, keys: seq<DedupKey>, lo: nat, hi: nat, k: DedupKey)
    requires hi <= |keys|
  {
    && Increasing(s)
    && (forall a :: 0 <= a < |s| ==> lo <= s[a] < hi && keys[s[a]] == k)
    && (forall i :: lo <= i < hi && keys[i] == k ==> i in s)
  }

  lemma {:induction false} KeyIdsExact(keys: seq<DedupKey>, lo: nat, hi: nat, k: DedupKey)
    requires hi <= |keys|
    ensures Lists(KeyIds(keys, lo, hi, k), keys, lo, hi, k)
  {
    if hi <= lo {
    } else {
      KeyIdsExact(keys, lo, hi - 1, k);
      ListsNext(KeyIds(keys, lo, hi - 1, k), keys, lo, hi, k);
    }
  }

  lemma ListsNext(s: seq<nat>, keys: seq<DedupKey>, lo: nat, hi: nat, k: DedupKey)
    requires lo < hi <= |keys| && Lists(s, keys, lo, hi - 1, k)
    ensures Lists(s + (if keys[hi - 1] == k then [hi - 1] else []), keys, lo, hi, k)
  {
    if keys[hi - 1] == k {
      var s' := s + [hi - 1];
      assert s'[|s|] == hi - 1 && forall i :: i in s ==> i in s';
    } else {
      assert s + [] == s;
    }
  }

  lemma {:induction false} KeyIdsForget(keys: seq<DedupKey>, lo: nat, hi: nat, k: DedupKey)
    requires lo < hi <= |keys|
    ensures KeyIds(keys, lo, hi, k) == (if keys[lo] == k then [lo] else []) + KeyIds(keys, lo + 1, hi, k)
  {
    if hi == lo + 1 {
    } else {
      KeyIdsForget(keys, lo, hi - 1, k);
    }
  }

  lemma {:induction false} KeyIdsPrefix(keys: seq<DedupKey>, x: DedupKey, lo: nat, hi: nat, k: DedupKey)
    requires hi <= |keys|
    ensures KeyIds(keys + [x], lo, hi, k) == KeyIds(keys, lo, hi, k)
  {
    if hi <= lo {
    } else {
      KeyIdsPrefix(keys, x, lo, hi - 1, k);
    }
  }

  function LiveIds(keys: seq<DedupKey>, lo: nat, k: DedupKey): seq<nat> {
    KeyIds(keys, lo, |keys|, k)
  }

  lemma LiveIdsAppend(keys: seq<DedupKey>, x: DedupKey, lo: nat, k: DedupKey)
    requires lo <= |keys|
    ensures LiveIds(keys + [x], lo, k) == LiveIds(keys, lo, k) + (if x == k then [|keys|] else [])
  {
    KeyIdsPrefix(keys, x, lo, |keys|, k);
  }

  /** The newest at most five. */
  function Newest(s: seq<nat>): seq<nat> {
    Suffix(MAX_BURSTS_PER_KEY, s)
  }

  type Histories = map<DedupKey, seq<nat>>

  function HistoryOf(dedup: Histories, k: DedupKey): seq<nat> {
    if k in dedup then dedup[k] else []
  }

  /**
    The history of `k` is the newest min(5, n) of its n live ids, in increasing order; a key
    without live ids is absent.
   */
  ghost predicate HistoryExact(dedup: Histories, keys: seq<DedupKey>, lo: nat, k: DedupKey) {
    && (k in dedup ==> dedup[k] != [])
    && HistoryOf(dedup, k) == if k.objectUid == "" then [] else Newest(LiveIds(keys, lo, k))
  }

  ghost predicate HistoriesExact(dedup: Histories, keys: seq<DedupKey>, lo: nat) {
    forall k :: HistoryExact(dedup, keys, lo, k)
  }

  /** The reverse map knows exactly the ids in some history, each under its own key. */
  ghost predicate ReverseExact(evict: map<nat, DedupKey>, dedup: Histories) {
    && (forall id :: id in evict ==> id in HistoryOf(dedup, evict[id]))
    && (forall k, id :: id in HistoryOf(dedup, k) ==> id in evict && evict[id] == k)
  }

  lemma HistorySound(dedup: Histories, keys: seq<DedupKey>, lo: nat, k: DedupKey)
    requires HistoryExact(dedup, keys, lo, k)
    ensures Increasing(HistoryOf(dedup, k))
    ensures forall id :: id in HistoryOf(dedup, k) ==> lo <= id < |keys| && keys[id] == k
  {
    var all := LiveIds(keys, lo, k);
    KeyIdsExact(keys, lo, |keys|, k);
    SuffixIsNewest(all, WindowLow(MAX_BURSTS_PER_KEY, |all|));
    forall id | id in HistoryOf(dedup, k)
      ensures lo <= id < |keys| && keys[id] == k
    {
      var a :| 0 <= a < |all| && all[a] == id;
    }
  }

  /** The last id of a history is the latest live episode of its key. */
  lemma HistoryFindsLatest(dedup: Histories, keys: seq<DedupKey>, lo: nat, k: DedupKey)
    requires HistoriesExact(dedup, keys, lo) && k.objectUid != ""
    ensures var h := HistoryOf(dedup, k);
            LatestWithKey(keys, lo, |keys|, k) == if h == [] then -1 else h[|h| - 1]
  {
    assert HistoryExact(dedup, keys, lo, k);
    var all, h := LiveIds(keys, lo, k), HistoryOf(dedup, k);
    KeyIdsExact(keys, lo, |keys|, k);
    if all != [] {
      var last := all[|all| - 1];
      assert h[|h| - 1] == last;
      assert forall j :: j in all ==> j <= last;
      LatestIsUnique(keys, lo, |keys|, k, last);
    } else {
      LatestIsUnique(keys, lo, |keys|, k, -1);
    }
  }

  /** History of a key after a new id: drop the front when there are more than five. */
  function Capped(h: seq<nat>): seq<nat> {
    if |h| > MAX_BURSTS_PER_KEY then h[1..] else h
  }

  lemma HistoriesPush(dedup: Histories, keys: seq<DedupKey>, lo: nat, x: DedupKey)
    requires HistoriesExact(dedup, keys, lo) && lo <= |keys|
    ensures x.objectUid == "" ==> HistoriesExact(dedup, keys + [x], lo)
    ensures x.objectUid != "" ==> HistoriesExact(dedup[x := Capped(HistoryOf(dedup, x) + [|keys|])], keys + [x], lo)
  {
    var dedup' := if x.objectUid == "" then dedup else dedup[x := Capped(HistoryOf(dedup, x) + [|keys|])];
    forall k
      ensures HistoryExact(dedup', keys + [x], lo, k)
    {
      assert HistoryExact(dedup, keys, lo, k);
      LiveIdsAppend(keys, x, lo, k);
      if k == x {
        NewestAppend(LiveIds(keys, lo, k), |keys|);
      }
    }
  }

  lemma NewestAppend(s: seq<nat>, x: nat)
    ensures Newest(s + [x]) == Capped(Newest(s) + [x])
  {
  }

  /** Replacing one key's history while the reverse map follows. */
  lemma ReverseUpdate(evict: map<nat, DedupKey>, dedup: Histories, evict': map<nat, DedupKey>, dedup': Histories,
                      k: DedupKey)
    requires ReverseExact(evict, dedup)
    requires forall k' :: k' != k ==> HistoryOf(dedup', k') == HistoryOf(dedup, k')
    requires forall id :: id in HistoryOf(dedup', k) ==> id !in evict || evict[id] == k
    requires forall id :: id in evict' <==> id in HistoryOf(dedup', k) || (id in evict && evict[id] != k)
    requires forall id :: id in evict' ==> evict'[id] == if id in HistoryOf(dedup', k) then k else evict[id]
    ensures ReverseExact(evict', dedup')
  {
  }

  lemma ReverseAppend(dedup: Histories, evict: map<nat, DedupKey>, x: DedupKey, id: nat)
    requires ReverseExact(evict, dedup) && id !in evict
    requires Increasing(HistoryOf(dedup, x)) && forall i :: i in HistoryOf(dedup, x) ==> i < id
    ensures var h := HistoryOf(dedup, x) + [id];
            ReverseExact((if |h| > MAX_BURSTS_PER_KEY then evict - {h[0]} else evict)[id := x], dedup[x := Capped(h)])
  {
    var h := HistoryOf(dedup, x) + [id];
    IncreasingAppend(HistoryOf(dedup, x), id);
    var capped := Capped(h);
    var evict' := (if |h| > MAX_BURSTS_PER_KEY then evict - {h[0]} else evict)[id := x];
    if |h| > MAX_BURSTS_PER_KEY {
      IncreasingTail(h);
    }
    assert forall i :: i in capped <==> i in h && (|h| > MAX_BURSTS_PER_KEY ==> i != h[0]);
    ReverseReplace(evict, dedup, evict', x, capped);
  }

  /** `ReverseUpdate` when the new history is known. */
  lemma ReverseReplace(evict: map<nat, DedupKey>, dedup: Histories, evict': map<nat, DedupKey>, k: DedupKey,
                       h: seq<nat>)
    requires ReverseExact(evict, dedup)
    requires forall id :: id in h ==> id !in evict || evict[id] == k
    requires forall id :: id in evict' <==> id in h || (id in evict && evict[id] != k)
    requires forall id :: id in evict' ==> evict'[id] == if id in h then k else evict[id]
    ensures ReverseExact(evict', dedup[k := h])
  {
    ReverseUpdate(evict, dedup, evict', dedup[k := h], k);
  }

  lemma ReversePush(dedup: Histories, evict: map<nat, DedupKey>, keys: seq<DedupKey>, lo: nat, x: DedupKey)
    requires HistoriesExact(dedup, keys, lo) && ReverseExact(evict, dedup)
    ensures var h := HistoryOf(dedup, x) + [|keys|];
            ReverseExact((if |h| > MAX_BURSTS_PER_KEY then evict - {h[0]} else evict)[|keys| := x],
                         dedup[x := Capped(h)])
  {
    assert HistoryExact(dedup, keys, lo, x);
    HistorySound(dedup, keys, lo, x);
    assert |keys| !in evict by {
      if |keys| in evict {
        assert HistoryExact(dedup, keys, lo, evict[|keys|]);
        HistorySound(dedup, keys, lo, evict[|keys|]);
      }
    }
    ReverseAppend(dedup, evict, x, |keys|);
  }

  /** The oldest live id is at the front of its history, or in none. */
  lemma OldestIsFront(dedup: Histories, keys: seq<DedupKey>, lo: nat)
    requires HistoriesExact(dedup, keys, lo) && lo < |keys|
    ensures var h := HistoryOf(dedup, keys[lo]);
            lo in h ==> h[0] == lo && h == LiveIds(keys, lo, keys[lo])
  {
    var k := keys[lo];
    assert HistoryExact(dedup, keys, lo, k);
    var all := LiveIds(keys, lo, k);
    KeyIdsForget(keys, lo, |keys|, k);
    KeyIdsExact(keys, lo, |keys|, k);
    assert all[0] == lo;
    assert forall a :: 1 <= a < |all| ==> all[a] > lo;
    if |all| > MAX_BURSTS_PER_KEY {
      assert forall a :: 0 <= a < MAX_BURSTS_PER_KEY ==> Newest(all)[a] == all[|all| - MAX_BURSTS_PER_KEY + a];
    }
  }

  /** What eviction leaves of the history of the evicted id. */
  function Dropped(dedup: Histories, k: DedupKey, id: nat): Histories {
    var h := HistoryOf(dedup, k);
    if id !in h then dedup
    else if |h| == 1 then dedup - {k}
    else dedup[k := h[1..]]
  }

  lemma HistoriesForget(dedup: Histories, keys: seq<DedupKey>, lo: nat)
    requires HistoriesExact(dedup, keys, lo) && lo < |keys|
    ensures HistoriesExact(Dropped(dedup, keys[lo], lo), keys, lo + 1)
  {
    var x, next := keys[lo], lo + 1;
    var dedup' := Dropped(dedup, x, lo);
    forall k
      ensures HistoryExact(dedup', keys, next, k)
    {
      assert HistoryExact(dedup, keys, lo, k);
      KeyIdsForget(keys, lo, |keys|, k);
      if k == x {
        ForgetOne(dedup, keys, lo);
      }
    }
  }

  lemma ForgetOne(dedup: Histories, keys: seq<DedupKey>, lo: nat)
    requires HistoriesExact(dedup, keys, lo) && lo < |keys|
    ensures HistoryExact(Dropped(dedup, keys[lo], lo), keys, lo + 1, keys[lo])
  {
    var k := keys[lo];
    var rest := LiveIds(keys, lo + 1, k);
    assert HistoryExact(dedup, keys, lo, k);
    KeyIdsForget(keys, lo, |keys|, k);
    NewestTail(lo, rest);
    OldestIsFront(dedup, keys, lo);
    var h := HistoryOf(dedup, k);
    assert |rest| < MAX_BURSTS_PER_KEY && k.objectUid != "" ==> h == [lo] + rest;
    if lo in h {
      assert h[1..] == rest;
    }
  }

  lemma NewestTail(x: nat, s: seq<nat>)
    ensures |s| < MAX_BURSTS_PER_KEY ==> Newest([x] + s) == [x] + s && Newest(s) == s
    ensures |s| >= MAX_BURSTS_PER_KEY ==> Newest([x] + s) == Newest(s)
  {
  }

  /** The oldest live id is tracked exactly when its key's history still holds it. */
  lemma OldestTracked(dedup: Histories, evict: map<nat, DedupKey>, keys: seq<DedupKey>, lo: nat)
    requires HistoriesExact(dedup, keys, lo) && ReverseExact(evict, dedup) && lo < |keys|
    ensures lo in evict <==> lo in HistoryOf(dedup, keys[lo])
    ensures lo in evict ==> evict[lo] == keys[lo]
  {
    if lo in evict {
      assert HistoryExact(dedup, keys, lo, evict[lo]);
      HistorySound(dedup, keys, lo, evict[lo]);
    }
  }

  lemma ReverseDropFront(dedup: Histories, evict: map<nat, DedupKey>, k: DedupKey, id: nat)
    requires ReverseExact(evict, dedup)
    requires HistoryOf(dedup, k) != [] && HistoryOf(dedup, k)[0] == id
    requires Increasing(HistoryOf(dedup, k))
    ensures ReverseExact(evict - {id}, Dropped(dedup, k, id))
  {
    var h := HistoryOf(dedup, k);
    IncreasingTail(h);
    var dedup' := Dropped(dedup, k, id);
    assert HistoryOf(dedup', k) == h[1..];
    ReverseUpdate(evict, dedup, evict - {id}, dedup', k);
  }

  lemma ReverseForget(dedup: Histories, evict: map<nat, DedupKey>, keys: seq<DedupKey>, lo: nat)
    requires HistoriesExact(dedup, keys, lo) && ReverseExact(evict, dedup) && lo in evict && lo < |keys|
    ensures ReverseExact(evict - {lo}, Dropped(dedup, keys[lo], lo))
  {
    var k := keys[lo];
    OldestTracked(dedup, evict, keys, lo);
    assert Increasing(HistoryOf(dedup, k)) by {
      assert HistoryExact(dedup, keys, lo, k);
      HistorySound(dedup, keys, lo, k);
    }
    OldestIsFront(dedup, keys, lo);
    ReverseDropFront(dedup, evict, k, lo);
  }

  lemma {:induction false} IncreasingSize(s: seq<nat>, ids: set<nat>)
    requires Increasing(s)
    requires forall a :: 0 <= a < |s| ==> s[a] in ids
    requires forall x :: x in ids ==> x in s
    ensures |ids| == |s|
    decreases |s|
  {
    if s == [] {
      assert ids == {};
    } else {
      var n := |s| - 1;
      forall x | x in ids - {s[n]}
        ensures x in s[..n]
      {
        var a :| 0 <= a < |s| && s[a] == x;
        assert s[..n][a] == x;
      }
      IncreasingSize(s[..n], ids - {s[n]});
    }
  }

  /** Declaratively: live ids of `k` in increasing order, at most five, and none left out is newer. */
  lemma HistoryIsNewest(dedup: Histories, keys: seq<DedupKey>, lo: nat, k: DedupKey)
    requires HistoriesExact(dedup, keys, lo) && k.objectUid != ""
    ensures var h, live := HistoryOf(dedup, k), set i: nat | lo <= i < |keys| && keys[i] == k;
            && Increasing(h)
            && (forall id :: id in h ==> id in live)
            && |h| == (if |live| < MAX_BURSTS_PER_KEY then |live| else MAX_BURSTS_PER_KEY)
            && (forall id, other :: id in h && other in live && other !in h ==> other < id)
  {
    assert HistoryExact(dedup, keys, lo, k);
    var all, h := LiveIds(keys, lo, k), HistoryOf(dedup, k);
    var live := set i: nat | lo <= i < |keys| && keys[i] == k;
    KeyIdsExact(keys, lo, |keys|, k);
    IncreasingSize(all, live);
    SuffixIsNewest(all, WindowLow(MAX_BURSTS_PER_KEY, |all|));
  }

  lemma SuffixIsNewest(s: seq<nat>, n: nat)
    requires Increasing(s) && n <= |s|
    ensures Increasing(s[n..]) && (forall id :: id in s[n..] ==> id in s)
    ensures forall id, other :: id in s[n..] && other in s && other !in s[n..] ==> other < id
  {
    forall id, other | id in s[n..] && other in s && other !in s[n..]
      ensures other < id
    {
      var a :| 0 <= a < |s| - n && s[n..][a] == id;
      var b :| 0 <= b < |s| && s[b] == other;
      assert b < n;
    }
  }
}
