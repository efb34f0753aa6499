/**
  What the event store is supposed to be, with no ring, maps or indexes: a list of burst
  episodes. Two views are given and proved to agree: the full history of episodes ever
  opened (each with every event merged into it), and the bounded list of current values.
 */
module Episodes {
  import opened Events
  import Seqs

  const MAX_BURSTS_PER_KEY := 5
  const BURST_GAP: Time := 300_000_000_000

  // ---- one episode ----

  predicate IsSameBurst(incoming: NormalizedEvent, existing: NormalizedEvent) {
    && incoming.count >= existing.count
    && !(incoming.firstSeen != ZERO_TIME && incoming.firstSeen > existing.lastSeen + BURST_GAP)
  }

  /** In-place update of the latest episode. */
  function MergeInto(latest: NormalizedEvent, e: NormalizedEvent): NormalizedEvent {
    var newer := e.lastSeen > latest.lastSeen;
    var earlier := e.firstSeen != ZERO_TIME && (latest.firstSeen == ZERO_TIME || e.firstSeen < latest.firstSeen);
    latest.(
      count := e.count,
      lastSeen := if newer then e.lastSeen else latest.lastSeen,
      message := if newer then e.message else latest.message,
      firstSeen := if earlier then e.firstSeen else latest.firstSeen,
      ownerChain := if |e.ownerChain| > 0 then e.ownerChain else latest.ownerChain)
  }

  /** The event that opened an episode and the later events merged into it, in order. */
  datatype Episode = Episode(opening: NormalizedEvent, merged: seq<NormalizedEvent>) {
    function All(): seq<NormalizedEvent> {
      [opening] + merged
    }

    function Prefix(n: nat): Episode
      requires n <= |merged|
    {
      Episode(opening, merged[..n])
    }

    /** The stored event: the fold of `MergeInto` over the merged events. */
    function Value(): NormalizedEvent
      decreases |merged|
    {
      if merged == [] then opening
      else MergeInto(Prefix(|merged| - 1).Value(), merged[|merged| - 1])
    }

    function Extend(e: NormalizedEvent): Episode {
      Episode(opening, merged + [e])
    }

    /** The `n`-th merged event was of the same key and burst as the value it was merged into. */
    ghost predicate CoherentAt(n: nat)
      requires n < |merged|
    {
      IsSameBurst(merged[n], Prefix(n).Value()) && KeyOf(merged[n]) == KeyOf(opening) && merged[n].objectUid != ""
    }

    ghost predicate Coherent() {
      forall n :: 0 <= n < |merged| ==> CoherentAt(n)
    }

    lemma ExtendValue(e: NormalizedEvent)
      ensures Extend(e).Value() == MergeInto(Value(), e)
    {
      assert Extend(e).Prefix(|merged|) == this;
    }

    /** Fields that no update touches. */
    lemma {:induction false} ValueFrame()
      ensures Value().clusterName == opening.clusterName
      ensures Value().namespace == opening.namespace
      ensures Value().objectKind == opening.objectKind
      ensures Value().objectName == opening.objectName
      ensures KeyOf(Value()) == KeyOf(opening)
      decreases |merged|
    {
      if merged == [] {
      } else {
        Prefix(|merged| - 1).ValueFrame();
      }
    }
  }

  // ---- the declarative reading of an episode ----

  /** `t` is the least non-zero first-seen, or zero when there is none. */
  ghost predicate IsEarliestFirstSeen(t: Time, s: seq<NormalizedEvent>) {
    && (t == ZERO_TIME ==> forall e :: e in s ==> e.firstSeen == ZERO_TIME)
    && (t != ZERO_TIME ==> exists e :: e in s && e.firstSeen == t)
    && (forall e :: e in s && e.firstSeen != ZERO_TIME ==> t <= e.firstSeen)
  }

  /** `m` is the message of the first event whose last-seen is the maximum `t`. */
  ghost predicate IsFirstLatest(t: Time, m: string, s: seq<NormalizedEvent>) {
    && (forall e :: e in s ==> e.lastSeen <= t)
    && exists i :: 0 <= i < |s| && s[i].lastSeen == t && s[i].message == m
         && forall j :: 0 <= j < i ==> s[j].lastSeen < t
  }

  /** `c` is the last non-empty owner chain, or empty when every chain is. */
  ghost predicate IsLastChain(c: seq<OwnerRef>, s: seq<NormalizedEvent>) {
    if c == [] then forall e :: e in s ==> e.ownerChain == []
    else exists i :: 0 <= i < |s| && s[i].ownerChain == c && forall j :: i < j < |s| ==> s[j].ownerChain == []
  }

  /**
    `v` summarises exactly the events `s`: latest and largest count, extreme times, and the
    texts that go with them.
   */
  ghost predicate Summarises(v: NormalizedEvent, s: seq<NormalizedEvent>)
    requires |s| > 0
  {
    && v.count == s[|s|-1].count
    && (forall e :: e in s ==> e.count <= v.count)
    && IsFirstLatest(v.lastSeen, v.message, s)
    && IsEarliestFirstSeen(v.firstSeen, s)
    && IsLastChain(v.ownerChain, s)
  }

  lemma FirstLatestStep(t: Time, m: string, s: seq<NormalizedEvent>, e: NormalizedEvent)
    requires IsFirstLatest(t, m, s)
    ensures IsFirstLatest(if e.lastSeen > t then e.lastSeen else t, if e.lastSeen > t then e.message else m, s + [e])
  {
    var s' := s + [e];
    assert forall x :: x in s' ==> x in s || x == e;
    if e.lastSeen > t {
      assert s'[|s|] == e;
      assert forall j :: 0 <= j < |s| ==> s'[j] in s;
    } else {
      var i :| 0 <= i < |s| && s[i].lastSeen == t && s[i].message == m && forall j :: 0 <= j < i ==> s[j].lastSeen < t;
      assert s'[i] == s[i] && forall j :: 0 <= j < i ==> s'[j] == s[j];
    }
  }

  lemma EarliestStep(t: Time, s: seq<NormalizedEvent>, e: NormalizedEvent)
    requires IsEarliestFirstSeen(t, s)
    ensures var earlier := e.firstSeen != ZERO_TIME && (t == ZERO_TIME || e.firstSeen < t);
            IsEarliestFirstSeen(if earlier then e.firstSeen else t, s + [e])
  {
    var s' := s + [e];
    assert forall x :: x in s' <==> x in s || x == e;
  }

  lemma LastChainStep(c: seq<OwnerRef>, s: seq<NormalizedEvent>, e: NormalizedEvent)
    requires IsLastChain(c, s)
    ensures IsLastChain(if |e.ownerChain| > 0 then e.ownerChain else c, s + [e])
  {
    var s' := s + [e];
    assert s'[|s|] == e;
    if |e.ownerChain| == 0 {
      if c == [] {
        assert forall x :: x in s' ==> x in s || x == e;
      } else {
        var i :| 0 <= i < |s| && s[i].ownerChain == c && forall j :: i < j < |s| ==> s[j].ownerChain == [];
        assert s'[i] == s[i] && forall j :: i < j < |s| ==> s'[j] == s[j];
      }
    }
  }

  lemma SummarisesStep(v: NormalizedEvent, s: seq<NormalizedEvent>, e: NormalizedEvent)
    requires |s| > 0 && Summarises(v, s) && IsSameBurst(e, v)
    ensures Summarises(MergeInto(v, e), s + [e])
  {
    FirstLatestStep(v.lastSeen, v.message, s, e);
    EarliestStep(v.firstSeen, s, e);
    LastChainStep(v.ownerChain, s, e);
    assert forall x :: x in s + [e] ==> x in s || x == e;
  }

  lemma SummarisesOne(e: NormalizedEvent)
    ensures Summarises(e, [e])
  {
    assert [e][0] == e;
  }

  lemma PrefixStep(ep: Episode, n: nat)
    requires n < |ep.merged|
    ensures ep.Prefix(n + 1).Value() == MergeInto(ep.Prefix(n).Value(), ep.merged[n])
    ensures ep.Prefix(n + 1).All() == ep.Prefix(n).All() + [ep.merged[n]]
  {
    assert ep.Prefix(n + 1).Prefix(n) == ep.Prefix(n);
  }

  lemma {:induction false} PrefixIsFold(ep: Episode, n: nat)
    requires ep.Coherent() && n <= |ep.merged|
    ensures Summarises(ep.Prefix(n).Value(), ep.Prefix(n).All())
  {
    if n == 0 {
      SummarisesOne(ep.opening);
      assert ep.Prefix(0).All() == [ep.opening];
    } else {
      PrefixIsFold(ep, n - 1);
      PrefixStep(ep, n - 1);
      assert ep.CoherentAt(n - 1);
      SummarisesStep(ep.Prefix(n - 1).Value(), ep.Prefix(n - 1).All(), ep.merged[n - 1]);
    }
  }

  /** A stored episode is the fold of exactly the events merged into it. */
  lemma EpisodeIsFold(ep: Episode)
    requires ep.Coherent()
    ensures Summarises(ep.Value(), ep.All())
  {
    PrefixIsFold(ep, |ep.merged|);
    assert ep.Prefix(|ep.merged|) == ep;
  }

  // ---- the history of episodes ----

  function Keys(hist: seq<Episode>): seq<DedupKey> {
    seq(|hist|, i requires 0 <= i < |hist| => KeyOf(hist[i].opening))
  }

  function Values(hist: seq<Episode>): seq<NormalizedEvent> {
    seq(|hist|, i requires 0 <= i < |hist| => hist[i].Value())
  }

  /** First live position when only the newest `cap` of `n` episodes are kept. */
  function WindowLow(cap: nat, n: nat): nat {
    if n > cap then n - cap else 0
  }

  /** Largest index in [lo, hi) carrying key `k`, or -1. */
  function LatestWithKey(keys: seq<DedupKey>, lo: nat, hi: nat, k: DedupKey): (r: int)
    requires hi <= |keys|
    ensures r == -1 || (lo <= r < hi && keys[r] == k)
    ensures forall j :: lo <= j < hi && keys[j] == k ==> j <= r
  {
    if hi <= lo then -1
    else if keys[hi - 1] == k then hi - 1
    else LatestWithKey(keys, lo, hi - 1, k)
  }

  /** Index of the live episode that `e` updates, or -1 when `e` opens a new one. */
  function Target(cap: nat, hist: seq<Episode>, e: NormalizedEvent): (r: int)
    ensures r == -1 || (WindowLow(cap, |hist|) <= r < |hist| && KeyOf(hist[r].opening) == KeyOf(e)
                        && IsSameBurst(e, hist[r].Value()) && e.objectUid != "")
  {
    var i := LatestWithKey(Keys(hist), WindowLow(cap, |hist|), |hist|, KeyOf(e));
    if e.objectUid != "" && i >= 0 && IsSameBurst(e, hist[i].Value()) then i else -1
  }

  function Step(cap: nat, hist: seq<Episode>, e: NormalizedEvent): seq<Episode> {
    var i := Target(cap, hist, e);
    if i >= 0 then hist[i := hist[i].Extend(e)] else hist + [Episode(e, [])]
  }

  /** The history after a whole run of additions. */
  function Replay(cap: nat, log: seq<NormalizedEvent>): seq<Episode> {
    if log == [] then [] else Step(cap, Replay(cap, log[..|log|-1]), log[|log|-1])
  }

  // ---- the bounded list ----

  function Suffix<T>(cap: nat, s: seq<T>): seq<T> {
    s[WindowLow(cap, |s|)..]
  }

  function EventKeys(s: seq<NormalizedEvent>): seq<DedupKey> {
    seq(|s|, i requires 0 <= i < |s| => KeyOf(s[i]))
  }

  /** The reference model: update the last entry of the same key and burst, else append and keep the newest `cap`. */
  function ListAdd(cap: nat, live: seq<NormalizedEvent>, e: NormalizedEvent): seq<NormalizedEvent> {
    var i := LatestWithKey(EventKeys(live), 0, |live|, KeyOf(e));
    if e.objectUid != "" && i >= 0 && IsSameBurst(e, live[i]) then live[i := MergeInto(live[i], e)]
    else Suffix(cap, live + [e])
  }

  function ListReplay(cap: nat, log: seq<NormalizedEvent>): seq<NormalizedEvent> {
    if log == [] then [] else ListAdd(cap, ListReplay(cap, log[..|log|-1]), log[|log|-1])
  }

  function Live(cap: nat, hist: seq<Episode>): seq<NormalizedEvent> {
    Suffix(cap, Values(hist))
  }

  lemma LatestIsUnique(keys: seq<DedupKey>, lo: nat, hi: nat, k: DedupKey, i: int)
    requires hi <= |keys|
    requires i == -1 || (lo <= i < hi && keys[i] == k)
    requires forall j :: lo <= j < hi && keys[j] == k ==> j <= i
    ensures LatestWithKey(keys, lo, hi, k) == i
  {
  }

  /** The window of values finds the same target as the history does. */
  lemma SameTarget(cap: nat, hist: seq<Episode>, k: DedupKey)
    ensures var lo := WindowLow(cap, |hist|);
            var i := LatestWithKey(Keys(hist), lo, |hist|, k);
            LatestWithKey(EventKeys(Live(cap, hist)), 0, |Live(cap, hist)|, k) == if i >= 0 then i - lo else -1
  {
    var lo := WindowLow(cap, |hist|);
    var live := Live(cap, hist);
    var lk := EventKeys(live);
    forall j | 0 <= j < |live|
      ensures lk[j] == Keys(hist)[lo + j]
    {
      hist[lo + j].ValueFrame();
    }
    var i := LatestWithKey(Keys(hist), lo, |hist|, k);
    forall j | 0 <= j < |live| && lk[j] == k
      ensures j <= i - lo
    {
      assert Keys(hist)[lo + j] == k;
    }
    LatestIsUnique(lk, 0, |live|, k, if i >= 0 then i - lo else -1);
  }

  lemma SuffixAppend<T>(cap: nat, s: seq<T>, x: T)
    requires cap > 0
    ensures Suffix(cap, s + [x]) == Suffix(cap, Suffix(cap, s) + [x])
  {
  }

  lemma ValuesUpdate(hist: seq<Episode>, i: nat, e: NormalizedEvent)
    requires i < |hist|
    ensures Values(hist[i := hist[i].Extend(e)]) == Values(hist)[i := MergeInto(hist[i].Value(), e)]
  {
    hist[i].ExtendValue(e);
  }

  lemma ValuesAppend(hist: seq<Episode>, e: NormalizedEvent)
    ensures Values(hist + [Episode(e, [])]) == Values(hist) + [e]
  {
    assert Episode(e, []).Value() == e;
  }

  /** One addition to the history is one addition to the bounded list. */
  lemma StepIsListAdd(cap: nat, hist: seq<Episode>, e: NormalizedEvent)
    requires cap > 0
    ensures Live(cap, Step(cap, hist, e)) == ListAdd(cap, Live(cap, hist), e)
  {
    var lo := WindowLow(cap, |hist|);
    SameTarget(cap, hist, KeyOf(e));
    var i := LatestWithKey(Keys(hist), lo, |hist|, KeyOf(e));
    if i >= 0 {
      assert Live(cap, hist)[i - lo] == hist[i].Value();
      ValuesUpdate(hist, i, e);
      assert Live(cap, hist[i := hist[i].Extend(e)]) == Live(cap, hist)[i - lo := MergeInto(hist[i].Value(), e)];
    }
    ValuesAppend(hist, e);
    SuffixAppend(cap, Values(hist), e);
  }

  /** Whole runs: the window of the history is the bounded list. */
  lemma {:induction false} ReplayIsListReplay(cap: nat, log: seq<NormalizedEvent>)
    requires cap > 0
    ensures Live(cap, Replay(cap, log)) == ListReplay(cap, log)
  {
    if log == [] {
    } else {
      var n := |log| - 1;
      ReplayIsListReplay(cap, log[..n]);
      StepIsListAdd(cap, Replay(cap, log[..n]), log[n]);
    }
  }

  lemma ReplayAppend(cap: nat, log: seq<NormalizedEvent>, e: NormalizedEvent)
    ensures Replay(cap, log + [e]) == Step(cap, Replay(cap, log), e)
    ensures ListReplay(cap, log + [e]) == ListAdd(cap, ListReplay(cap, log), e)
  {
    assert (log + [e])[..|log|] == log;
  }

  // ---- what holds of every reachable history ----

  ghost function Copies(ep: Episode, x: NormalizedEvent): nat {
    Seqs.Count(ep.All(), x)
  }

  /** How often `x` is recorded in the first `n` episodes. */
  ghost function Recorded(hist: seq<Episode>, n: nat, x: NormalizedEvent): nat
    requires n <= |hist|
  {
    if n == 0 then 0 else Recorded(hist, n - 1, x) + Copies(hist[n - 1], x)
  }

  lemma ExtendRecords(ep: Episode, e: NormalizedEvent, x: NormalizedEvent)
    ensures Copies(ep.Extend(e), x) == Copies(ep, x) + if x == e then 1 else 0
  {
    assert ep.Extend(e).All() == ep.All() + [e];
    Seqs.CountAppend(ep.All(), e, x);
  }

  lemma {:induction false} RecordedFrame(hist: seq<Episode>, hist': seq<Episode>, n: nat, i: int, x: NormalizedEvent)
    requires n <= |hist| && n <= |hist'|
    requires forall j :: 0 <= j < n && j != i ==> hist'[j] == hist[j]
    ensures Recorded(hist', n, x) ==
            Recorded(hist, n, x) + if 0 <= i < n then Copies(hist'[i], x) - Copies(hist[i], x) else 0
  {
    if n == 0 {
    } else {
      RecordedFrame(hist, hist', n - 1, i, x);
    }
  }

  lemma UpdateConserves(hist: seq<Episode>, i: nat, e: NormalizedEvent, x: NormalizedEvent)
    requires i < |hist|
    ensures Recorded(hist[i := hist[i].Extend(e)], |hist|, x) == Recorded(hist, |hist|, x) + if x == e then 1 else 0
  {
    ExtendRecords(hist[i], e, x);
    RecordedFrame(hist, hist[i := hist[i].Extend(e)], |hist|, i, x);
  }

  lemma AppendConserves(hist: seq<Episode>, e: NormalizedEvent, x: NormalizedEvent)
    ensures Recorded(hist + [Episode(e, [])], |hist| + 1, x) == Recorded(hist, |hist|, x) + if x == e then 1 else 0
  {
    var hist' := hist + [Episode(e, [])];
    RecordedFrame(hist, hist', |hist|, -1, x);
    OpeningCopies(e, x);
    assert Recorded(hist', |hist| + 1, x) == Recorded(hist', |hist|, x) + Copies(hist'[|hist|], x);
  }

  lemma OpeningCopies(e: NormalizedEvent, x: NormalizedEvent)
    ensures Copies(Episode(e, []), x) == if x == e then 1 else 0
  {
    Seqs.CountAppend([], e, x);
    assert Episode(e, []).All() == [] + [e];
  }

  lemma StepConserves(cap: nat, hist: seq<Episode>, e: NormalizedEvent, x: NormalizedEvent)
    ensures var hist' := Step(cap, hist, e);
            Recorded(hist', |hist'|, x) == Recorded(hist, |hist|, x) + if x == e then 1 else 0
  {
    var i := Target(cap, hist, e);
    if i >= 0 {
      UpdateConserves(hist, i, e, x);
    } else {
      AppendConserves(hist, e, x);
    }
  }

  /** Every event is recorded, over all episodes, exactly as often as it was added. */
  lemma {:induction false} ReplayConserves(cap: nat, log: seq<NormalizedEvent>, x: NormalizedEvent)
    ensures Recorded(Replay(cap, log), |Replay(cap, log)|, x) == Seqs.Count(log, x)
  {
    if log == [] {
    } else {
      var n := |log| - 1;
      ReplayConserves(cap, log[..n], x);
      StepConserves(cap, Replay(cap, log[..n]), log[n], x);
    }
  }

  lemma ExtendCoherent(ep: Episode, e: NormalizedEvent)
    requires ep.Coherent() && IsSameBurst(e, ep.Value()) && KeyOf(e) == KeyOf(ep.opening) && e.objectUid != ""
    ensures ep.Extend(e).Coherent()
  {
    forall n: nat | n < |ep.Extend(e).merged|
      ensures ep.Extend(e).CoherentAt(n)
    {
      assert n < |ep.merged| ==> ep.CoherentAt(n);
      ExtendPrefix(ep, e, n);
    }
  }

  lemma ExtendPrefix(ep: Episode, e: NormalizedEvent, n: nat)
    requires n <= |ep.merged|
    ensures ep.Extend(e).Prefix(n) == if n < |ep.merged| then ep.Prefix(n) else ep
    ensures ep.Extend(e).merged[n] == if n < |ep.merged| then ep.merged[n] else e
  {
  }

  /** `i` and `j` are consecutive episodes of one key, and `i` was still live when `j` opened. */
  ghost predicate Consecutive(cap: nat, hist: seq<Episode>, i: int, j: int) {
    && 0 <= i < j < |hist| && j - i <= cap
    && hist[i].opening.objectUid != ""
    && Keys(hist)[i] == Keys(hist)[j]
    && forall m :: i < m < j ==> Keys(hist)[m] != Keys(hist)[j]
  }

  ghost predicate Reachable(cap: nat, hist: seq<Episode>) {
    && (forall i :: 0 <= i < |hist| ==> hist[i].Coherent())
    && forall i, j :: Consecutive(cap, hist, i, j) ==> !IsSameBurst(hist[j].opening, hist[i].Value())
  }

  lemma StepReachable(cap: nat, hist: seq<Episode>, e: NormalizedEvent)
    requires Reachable(cap, hist)
    ensures Reachable(cap, Step(cap, hist, e))
  {
    var hist' := Step(cap, hist, e);
    var lo := WindowLow(cap, |hist|);
    var t := Target(cap, hist, e);
    if t >= 0 {
      ExtendCoherent(hist[t], e);
      assert Keys(hist') == Keys(hist);
    } else {
      assert Episode(e, []).Coherent();
      assert Keys(hist') == Keys(hist) + [KeyOf(e)];
    }
    forall i, j | Consecutive(cap, hist', i, j)
      ensures !IsSameBurst(hist'[j].opening, hist'[i].Value())
    {
      if j < |hist| {
        assert Keys(hist')[i] == Keys(hist)[i] && Keys(hist')[j] == Keys(hist)[j];
        assert forall m :: i < m < j ==> Keys(hist)[m] == Keys(hist')[m];
        assert Consecutive(cap, hist, i, j);
        // a newer episode of the key is live, so the older one is not the target
        assert i != t;
      } else {
        assert forall m :: lo <= m < |hist| ==> Keys(hist)[m] == Keys(hist')[m];
        LatestIsUnique(Keys(hist), lo, |hist|, KeyOf(e), i);
      }
    }
  }

  lemma {:induction false} ReplayReachable(cap: nat, log: seq<NormalizedEvent>)
    ensures Reachable(cap, Replay(cap, log))
  {
    if log == [] {
    } else {
      ReplayReachable(cap, log[..|log|-1]);
      StepReachable(cap, Replay(cap, log[..|log|-1]), log[|log|-1]);
    }
  }

  /** Two episodes are about the same object and reason. */
  ghost predicate Alike(d: NormalizedEvent, e: NormalizedEvent) {
    d.objectUid == e.objectUid && d.reason == e.reason
  }

  /**
    Episode separation: of two consecutive live episodes of one object and reason, the newer
    one was opened by a count reset or by a gap of more than five minutes, measured against
    the older one's final value.
   */
  lemma EpisodesAreSeparated(cap: nat, log: seq<NormalizedEvent>, i: nat, j: nat)
    requires var hist := Replay(cap, log);
             && |hist| - cap <= i < j < |hist|
             && hist[i].opening.objectUid != ""
             && Alike(hist[i].opening, hist[j].opening)
             && forall m :: i < m < j ==> !Alike(hist[m].opening, hist[j].opening)
    ensures var hist := Replay(cap, log);
            var opening, final := hist[j].opening, hist[i].Value();
            || opening.count < final.count
            || (opening.firstSeen != 0 && opening.firstSeen > final.lastSeen + 300_000_000_000)
  {
    ReplayReachable(cap, log);
    assert forall m :: i <= m < j ==> Keys(Replay(cap, log))[m] == KeyOf(Replay(cap, log)[m].opening);
    assert Consecutive(cap, Replay(cap, log), i, j);
  }

  /**
    And what is merged belongs together: an event merged into an episode is of its object and
    reason, of a known object, with no smaller count than any before it, and its first-seen
    time, if set, is at most five minutes after the last-seen of one before it.
   */
  lemma MergedEventsAreNear(cap: nat, log: seq<NormalizedEvent>, i: nat, n: nat)
    requires i < |Replay(cap, log)| && n < |Replay(cap, log)[i].merged|
    ensures var ep := Replay(cap, log)[i];
            var e, before := ep.merged[n], ep.Prefix(n).All();
            && e.objectUid == ep.opening.objectUid && e.objectUid != "" && e.reason == ep.opening.reason
            && (forall d :: d in before ==> d.count <= e.count)
            && (e.firstSeen == 0 || exists d :: d in before && e.firstSeen <= d.lastSeen + 300_000_000_000)
  {
    ReplayReachable(cap, log);
    var ep := Replay(cap, log)[i];
    assert ep.CoherentAt(n);
    PrefixIsFold(ep, n);
    var k :| 0 <= k <= n && ep.Prefix(n).All()[k].lastSeen == ep.Prefix(n).Value().lastSeen;
    assert ep.Prefix(n).All()[k] in ep.Prefix(n).All();
  }

  /** The `i`-th episode is the latest live one of `e`'s object and reason, and `e` continues it. */
  ghost predicate Continues(cap: nat, hist: seq<Episode>, e: NormalizedEvent, i: int) {
    && 0 <= i < |hist| && |hist| - cap <= i
    && e.objectUid != "" && Alike(hist[i].opening, e)
    && (forall j :: i < j < |hist| ==> !Alike(hist[j].opening, e))
    && e.count >= hist[i].Value().count
    && (e.firstSeen == 0 || e.firstSeen <= hist[i].Value().lastSeen + 300_000_000_000)
  }

  /** Adding an event extends an episode exactly when it continues it, and else opens a new one. */
  lemma AddExtendsIff(cap: nat, log: seq<NormalizedEvent>, e: NormalizedEvent)
    ensures var hist, hist' := Replay(cap, log), Replay(cap, log + [e]);
            && (forall i :: Continues(cap, hist, e, i) ==> hist' == hist[i := hist[i].Extend(e)])
            && ((forall i :: !Continues(cap, hist, e, i)) ==> hist' == hist + [Episode(e, [])])
  {
    var hist := Replay(cap, log);
    ReplayAppend(cap, log, e);
    var lo := WindowLow(cap, |hist|);
    var t := LatestWithKey(Keys(hist), lo, |hist|, KeyOf(e));
    assert forall j :: 0 <= j < |hist| ==> (Keys(hist)[j] == KeyOf(e) <==> Alike(hist[j].opening, e));
    forall i | Continues(cap, hist, e, i)
      ensures i == t && Target(cap, hist, e) == i
    {
      LatestIsUnique(Keys(hist), lo, |hist|, KeyOf(e), i);
    }
    if Target(cap, hist, e) >= 0 {
      assert Continues(cap, hist, e, t);
    }
  }

  /** Every stored event is the summary of the events recorded for its episode, in every run. */
  lemma ReplayedEpisodesAreFolds(cap: nat, log: seq<NormalizedEvent>, i: nat)
    requires i < |Replay(cap, log)|
    ensures Summarises(Replay(cap, log)[i].Value(), Replay(cap, log)[i].All())
  {
    ReplayReachable(cap, log);
    EpisodeIsFold(Replay(cap, log)[i]);
  }

  lemma StepFreezes(cap: nat, hist: seq<Episode>, e: NormalizedEvent, i: nat, j: nat)
    requires i < j < |hist| && Keys(hist)[i] == Keys(hist)[j]
    ensures var hist' := Step(cap, hist, e);
            j < |hist'| && hist'[i] == hist[i] && Keys(hist')[j] == Keys(hist)[j]
  {
    assert Target(cap, hist, e) != i;
  }

  /** Once a newer episode of its key exists, an episode never changes again, whatever is added. */
  lemma {:induction false} OlderEpisodesAreFrozen(cap: nat, log: seq<NormalizedEvent>, more: seq<NormalizedEvent>,
                                                  i: nat, j: nat)
    requires i < j < |Replay(cap, log)|
    requires Keys(Replay(cap, log))[i] == Keys(Replay(cap, log))[j]
    ensures j < |Replay(cap, log + more)|
    ensures Keys(Replay(cap, log + more))[j] == Keys(Replay(cap, log))[j]
    ensures Replay(cap, log + more)[i] == Replay(cap, log)[i]
  {
    if more == [] {
      assert log + more == log;
    } else {
      var n := |more| - 1;
      var before := log + more[..n];
      assert log + more == before + [more[n]];
      OlderEpisodesAreFrozen(cap, log, more[..n], i, j);
      ReplayAppend(cap, before, more[n]);
      StepFreezes(cap, Replay(cap, before), more[n], i, j);
    }
  }

  /** What never changes about an episode is what its opening event said. */
  ghost predicate SameOrigin(v: NormalizedEvent, d: NormalizedEvent) {
    && v.clusterName == d.clusterName && v.namespace == d.namespace
    && v.objectKind == d.objectKind && v.objectName == d.objectName
    && v.objectUid == d.objectUid && v.reason == d.reason
  }

  ghost predicate Originates(v: NormalizedEvent, log: seq<NormalizedEvent>) {
    exists d :: d in log && SameOrigin(v, d)
  }

  lemma OriginOfMerge(v: NormalizedEvent, e: NormalizedEvent)
    ensures SameOrigin(MergeInto(v, e), v)
  {
  }

  lemma OriginIsKept(v: NormalizedEvent, x: NormalizedEvent, log: seq<NormalizedEvent>, e: NormalizedEvent)
    requires SameOrigin(v, x) && Originates(x, log)
    ensures Originates(v, log + [e])
  {
    var d :| d in log && SameOrigin(x, d);
    assert d in log + [e] && SameOrigin(v, d);
  }

  lemma ListAddMember(cap: nat, live: seq<NormalizedEvent>, e: NormalizedEvent, v: NormalizedEvent)
    requires v in ListAdd(cap, live, e)
    ensures v == e || exists x :: x in live && SameOrigin(v, x)
  {
    var i := LatestWithKey(EventKeys(live), 0, |live|, KeyOf(e));
    if e.objectUid != "" && i >= 0 && IsSameBurst(e, live[i]) {
      OriginOfMerge(live[i], e);
      assert v in live ==> SameOrigin(v, v);
      assert live[i] in live;
    } else {
      assert v in live + [e];
      assert v in live ==> SameOrigin(v, v);
    }
  }

  /** Every stored event originates in one that was added. */
  lemma {:induction false} StoredOriginates(cap: nat, log: seq<NormalizedEvent>, v: NormalizedEvent)
    requires v in ListReplay(cap, log)
    ensures Originates(v, log)
  {
    var p, e := log[..|log|-1], log[|log|-1];
    assert log == p + [e];
    ListAddMember(cap, ListReplay(cap, p), e, v);
    if v == e {
      assert e in log && SameOrigin(v, e);
    } else {
      var x :| x in ListReplay(cap, p) && SameOrigin(v, x);
      StoredOriginates(cap, p, x);
      OriginIsKept(v, x, p, e);
    }
  }

  // ---- how many episodes of one key are kept ----

  function HasKey(k: DedupKey): NormalizedEvent -> bool {
    (e: NormalizedEvent) => KeyOf(e) == k
  }

  function OfKey(log: seq<NormalizedEvent>, k: DedupKey): seq<NormalizedEvent> {
    Seqs.Filter(HasKey(k), log)
  }

  lemma {:induction false} ListReplayBounded(cap: nat, log: seq<NormalizedEvent>)
    ensures |ListReplay(cap, log)| <= cap
  {
    if log == [] {
    } else {
      ListReplayBounded(cap, log[..|log|-1]);
    }
  }

  /** The `n`-th of a series of occurrences of `e`, each more than five minutes after the one before. */
  function Occurrence(e: NormalizedEvent, n: nat): NormalizedEvent {
    var t := (n + 1) * (BURST_GAP + 1);
    e.(firstSeen := t, lastSeen := t)
  }

  function Occurrences(e: NormalizedEvent, n: nat): (s: seq<NormalizedEvent>)
    ensures |s| == n && forall i :: 0 <= i < n ==> s[i] == Occurrence(e, i)
  {
    seq(n, i requires 0 <= i < n => Occurrence(e, i))
  }

  lemma OccurrencesAreApart(e: NormalizedEvent, n: nat)
    ensures !IsSameBurst(Occurrence(e, n + 1), Occurrence(e, n))
  {
  }

  lemma {:induction false} OccurrenceOpens(cap: nat, e: NormalizedEvent, n: nat)
    requires n < cap
    ensures ListAdd(cap, Occurrences(e, n), Occurrence(e, n)) == Occurrences(e, n) + [Occurrence(e, n)]
  {
    var live := Occurrences(e, n);
    LatestIsUnique(EventKeys(live), 0, n, KeyOf(e), n - 1);
    if n == 0 {
    } else {
      OccurrencesAreApart(e, n - 1);
    }
  }

  lemma OccurrencesNext(e: NormalizedEvent, n: nat)
    ensures Occurrences(e, n + 1) == Occurrences(e, n) + [Occurrence(e, n)]
  {
  }

  lemma {:induction false} OccurrencesReplay(cap: nat, e: NormalizedEvent, n: nat)
    requires n <= cap
    ensures ListReplay(cap, Occurrences(e, n)) == Occurrences(e, n)
  {
    if n == 0 {
    } else {
      OccurrencesReplay(cap, e, n - 1);
      OccurrencesNext(e, n - 1);
      ReplayAppend(cap, Occurrences(e, n - 1), Occurrence(e, n - 1));
      OccurrenceOpens(cap, e, n - 1);
    }
  }

  lemma OccurrencesShareKey(e: NormalizedEvent, n: nat)
    ensures OfKey(Occurrences(e, n), KeyOf(e)) == Occurrences(e, n)
  {
    Seqs.FilterAll(HasKey(KeyOf(e)), Occurrences(e, n));
  }

  /** As many bursts of one object and reason as there is room for are all kept, as separate episodes. */
  lemma OccurrencesAreKept(cap: nat, e: NormalizedEvent, n: nat)
    requires n <= cap
    ensures ListReplay(cap, Occurrences(e, n)) == Occurrences(e, n)
    ensures OfKey(Occurrences(e, n), KeyOf(e)) == Occurrences(e, n)
  {
    OccurrencesReplay(cap, e, n);
    OccurrencesShareKey(e, n);
  }

  lemma {:induction false} OfKeyBounded(s: seq<NormalizedEvent>, k: DedupKey)
    ensures |OfKey(s, k)| <= |s|
  {
    if s == [] {
    } else {
      OfKeyBounded(s[..|s|-1], k);
    }
  }

  lemma OfKeyMember(log: seq<NormalizedEvent>, k: DedupKey, e: NormalizedEvent)
    ensures e in OfKey(log, k) <==> e in log && e.objectUid == k.objectUid && e.reason == k.reason
  {
    Seqs.FilterMember(HasKey(k), log, e);
  }

  /** No run leaves more than `bound` stored episodes of one object and reason. */
  ghost predicate KeepsAtMost(cap: nat, bound: nat) {
    forall log, k: DedupKey :: k.objectUid != "" ==> |OfKey(ListReplay(cap, log), k)| <= bound
  }

  /** A bound on the stored episodes of one key holds in every run if and only if it is a bound on the whole store. */
  lemma EpisodesPerKeyIff(cap: nat, bound: nat)
    ensures KeepsAtMost(cap, bound) <==> cap <= bound
  {
    if cap <= bound {
      forall log: seq<NormalizedEvent>, k: DedupKey
        ensures |OfKey(ListReplay(cap, log), k)| <= bound
      {
        ListReplayBounded(cap, log);
        OfKeyBounded(ListReplay(cap, log), k);
      }
    } else {
      var e := NormalizedEvent("", "", "Pod", "web", "uid", [], "BackOff", "", 1, ZERO_TIME, ZERO_TIME);
      OccurrencesAreKept(cap, e, bound + 1);
      assert |OfKey(ListReplay(cap, Occurrences(e, bound + 1)), KeyOf(e))| == bound + 1;
    }
  }

  /** So five episodes for each key, the cap on its burst history, is exceeded by any store of six or more. */
  lemma SixEpisodesOfOneKey(cap: nat, e: NormalizedEvent)
    requires cap > MAX_BURSTS_PER_KEY && e.objectUid != ""
    ensures |OfKey(ListReplay(cap, Occurrences(e, 6)), KeyOf(e))| == 6
    ensures !KeepsAtMost(cap, MAX_BURSTS_PER_KEY)
  {
    OccurrencesAreKept(cap, e, 6);
  }
}
