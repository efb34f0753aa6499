/** The accumulating deduplicator: one entry for each (object UID, reason). */
module Deduplication {
  import opened Events
  import opened Episodes
  import Seqs

  /** Sum counts, widen the time span, keep the newest message and the first owner chain. */
  function Absorb(existing: NormalizedEvent, e: NormalizedEvent): NormalizedEvent {
    var newer := e.lastSeen > existing.lastSeen;
    existing.(
      count := Wrap32(existing.count + e.count),
      firstSeen := if e.firstSeen < existing.firstSeen then e.firstSeen else existing.firstSeen,
      lastSeen := if newer then e.lastSeen else existing.lastSeen,
      message := if newer then e.message else existing.message,
      ownerChain := if |existing.ownerChain| == 0 && |e.ownerChain| > 0 then e.ownerChain else existing.ownerChain)
  }

  type Entries = map<DedupKey, NormalizedEvent>

  function Upsert(index: Entries, e: NormalizedEvent): Entries {
    index[KeyOf(e) := if KeyOf(e) in index then Absorb(index[KeyOf(e)], e) else e]
  }

  function Merged(log: seq<NormalizedEvent>): Entries {
    if log == [] then map[] else Upsert(Merged(log[..|log|-1]), log[|log|-1])
  }

  lemma MergedAppend(log: seq<NormalizedEvent>, e: NormalizedEvent)
    ensures Merged(log + [e]) == Upsert(Merged(log), e)
  {
    assert (log + [e])[..|log|] == log;
  }

  class Deduplicator {
    var index: Entries
    ghost var log: seq<NormalizedEvent>

    ghost predicate Valid()
      reads this
    {
      index == Merged(log)
    }

    constructor ()
      ensures Valid() && log == []
    {
      index := map[];
      log := [];
    }

    method Merge(e: NormalizedEvent) returns (merged: NormalizedEvent, isNew: bool)
      requires Valid()
      modifies this
      ensures Valid() && log == old(log) + [e]
      ensures isNew <==> KeyOf(e) !in old(index)
      ensures KeyOf(e) in index && merged == index[KeyOf(e)]
    {
      MergedAppend(log, e);
      log := log + [e];
      var key := KeyOf(e);
      if key !in index {
        index := index[key := e];
        return e, true;
      }
      var existing := index[key];
      existing := existing.(count := Wrap32(existing.count + e.count));
      if e.firstSeen < existing.firstSeen {
        existing := existing.(firstSeen := e.firstSeen);
      }
      if e.lastSeen > existing.lastSeen {
        existing := existing.(lastSeen := e.lastSeen);
        existing := existing.(message := e.message);
      }
      if |existing.ownerChain| == 0 && |e.ownerChain| > 0 {
        existing := existing.(ownerChain := e.ownerChain);
      }
      index := index[key := existing];
      return existing, false;
    }

    /** All entries, in whatever order the map is walked. */
    method Snapshot() returns (out: seq<NormalizedEvent>, ghost keys: seq<DedupKey>)
      requires Valid()
      ensures Enumerates(keys, index.Keys) && |out| == |keys|
      ensures forall i :: 0 <= i < |keys| ==> out[i] == index[keys[i]]
      ensures Wrap32(SumCounts(out)) == Wrap32(SumCounts(log))
    {
      out, keys := [], [];
      var todo := index.Keys;
      while todo != {}
        invariant todo <= index.Keys && Enumerates(keys, index.Keys - todo) && |out| == |keys|
        invariant forall i :: 0 <= i < |keys| ==> out[i] == index[keys[i]]
        decreases todo
      {
        var k :| k in todo;
        EnumeratesAppend(keys, index.Keys - todo, k);
        out := out + [index[k]];
        keys := keys + [k];
        todo := todo - {k};
        assert index.Keys - todo == (index.Keys - (todo + {k})) + {k};
      }
      assert index.Keys - {} == index.Keys;
      SnapshotTotal(log, keys, out);
    }
  }

  ghost predicate Enumerates(keys: seq<DedupKey>, s: set<DedupKey>) {
    && (forall i, j :: 0 <= i < j < |keys| ==> keys[i] != keys[j])
    && (forall i :: 0 <= i < |keys| ==> keys[i] in s)
    && (forall k :: k in s ==> k in keys)
  }

  lemma EnumeratesAppend(keys: seq<DedupKey>, s: set<DedupKey>, k: DedupKey)
    requires Enumerates(keys, s) && k !in s
    ensures Enumerates(keys + [k], s + {k})
  {
  }

  // ---- what an entry says ----

  /** `v` accumulates exactly the events `s`: wrapped sum of counts and the extreme times, both attained. */
  ghost predicate Accumulates(v: NormalizedEvent, s: seq<NormalizedEvent>) {
    && v.count == Wrap32(SumCounts(s))
    && (forall e :: e in s ==> v.firstSeen <= e.firstSeen && e.lastSeen <= v.lastSeen)
    && (exists e :: e in s && e.firstSeen == v.firstSeen)
    && (exists e :: e in s && e.lastSeen == v.lastSeen)
  }

  lemma AccumulatesOne(e: NormalizedEvent)
    ensures Accumulates(e, [e])
  {
    Seqs.SumAppend(CountOf, [], e);
    assert [] + [e] == [e];
    WrapFits(e.count);
    assert e in [e];
  }

  lemma SumStep(count: Int32, s: seq<NormalizedEvent>, e: NormalizedEvent)
    requires count == Wrap32(SumCounts(s))
    ensures Wrap32(count + e.count) == Wrap32(SumCounts(s + [e]))
  {
    Seqs.SumAppend(CountOf, s, e);
    WrapAdd(SumCounts(s), e.count);
  }

  lemma AccumulatesStep(v: NormalizedEvent, s: seq<NormalizedEvent>, e: NormalizedEvent)
    requires Accumulates(v, s)
    ensures Accumulates(Absorb(v, e), s + [e])
  {
    var s' := s + [e];
    SumStep(v.count, s, e);
    assert e in s';
    var a :| a in s && a.firstSeen == v.firstSeen;
    var b :| b in s && b.lastSeen == v.lastSeen;
    assert a in s' && b in s';
  }

  /** One entry for each key that occurs, accumulating exactly that key's events. */
  lemma {:induction false} MergedExact(log: seq<NormalizedEvent>, k: DedupKey)
    ensures k in Merged(log) <==> OfKey(log, k) != []
    ensures k in Merged(log) ==>
              && Merged(log)[k].objectUid == k.objectUid && Merged(log)[k].reason == k.reason
              && Accumulates(Merged(log)[k], OfKey(log, k))
  {
    if log == [] {
    } else {
      var p, e := log[..|log|-1], log[|log|-1];
      assert log == p + [e];
      MergedExact(p, k);
      Seqs.FilterAppend(HasKey(k), p, e);
      if KeyOf(e) == k {
        if k in Merged(p) {
          AccumulatesStep(Merged(p)[k], OfKey(p, k), e);
        } else {
          AccumulatesOne(e);
        }
      } else {
        assert OfKey(log, k) == OfKey(p, k);
      }
    }
  }

  /** `c` is the first non-empty owner chain, or empty when every chain is. */
  ghost predicate IsFirstChain(c: seq<OwnerRef>, s: seq<NormalizedEvent>) {
    if c == [] then forall e :: e in s ==> e.ownerChain == []
    else exists i :: 0 <= i < |s| && s[i].ownerChain == c && forall j :: 0 <= j < i ==> s[j].ownerChain == []
  }

  lemma FirstChainStep(c: seq<OwnerRef>, s: seq<NormalizedEvent>, e: NormalizedEvent)
    requires IsFirstChain(c, s)
    ensures IsFirstChain(if |c| == 0 && |e.ownerChain| > 0 then e.ownerChain else c, s + [e])
  {
    var s' := s + [e];
    if |c| == 0 {
      assert s'[|s|] == e && forall j :: 0 <= j < |s| ==> s'[j] in s;
    } else {
      var i :| 0 <= i < |s| && s[i].ownerChain == c && forall j :: 0 <= j < i ==> s[j].ownerChain == [];
      assert s'[i] == s[i] && forall j :: 0 <= j < i ==> s'[j] == s[j];
    }
  }

  /** `v` carries the message of the first event reaching its last-seen, and the first owner chain known. */
  ghost predicate Carries(v: NormalizedEvent, s: seq<NormalizedEvent>) {
    IsFirstLatest(v.lastSeen, v.message, s) && IsFirstChain(v.ownerChain, s)
  }

  lemma CarriesStep(v: NormalizedEvent, s: seq<NormalizedEvent>, e: NormalizedEvent)
    requires Carries(v, s)
    ensures Carries(Absorb(v, e), s + [e])
  {
    FirstLatestStep(v.lastSeen, v.message, s, e);
    FirstChainStep(v.ownerChain, s, e);
  }

  lemma CarriesOne(e: NormalizedEvent)
    ensures Carries(e, [e])
  {
    assert [e][0] == e;
  }

  lemma {:induction false} MergedCarries(log: seq<NormalizedEvent>, k: DedupKey)
    requires k in Merged(log)
    ensures Carries(Merged(log)[k], OfKey(log, k))
  {
    var p, e := log[..|log|-1], log[|log|-1];
    assert log == p + [e];
    Seqs.FilterAppend(HasKey(k), p, e);
    if KeyOf(e) != k {
      assert OfKey(log, k) == OfKey(p, k);
      MergedCarries(p, k);
    } else if k in Merged(p) {
      MergedCarries(p, k);
      CarriesStep(Merged(p)[k], OfKey(p, k), e);
    } else {
      MergedExact(p, k);
      assert OfKey(log, k) == [e];
      CarriesOne(e);
    }
  }

  // ---- order independence ----

  lemma AccumulatesUnique(v: NormalizedEvent, w: NormalizedEvent, a: seq<NormalizedEvent>, b: seq<NormalizedEvent>)
    requires multiset(a) == multiset(b) && Accumulates(v, a) && Accumulates(w, b)
    ensures v.count == w.count && v.firstSeen == w.firstSeen && v.lastSeen == w.lastSeen
  {
    Seqs.SumPermuted(CountOf, a, b);
    forall e
      ensures e in a <==> e in b
    {
      Seqs.SameMembers(a, b, e);
    }
  }

  /** Merging in another order gives the same keys, counts and time spans. */
  lemma MergeOrderIrrelevant(a: seq<NormalizedEvent>, b: seq<NormalizedEvent>, k: DedupKey)
    requires multiset(a) == multiset(b)
    ensures k in Merged(a) <==> k in Merged(b)
    ensures k in Merged(a) ==>
              && Merged(a)[k].count == Merged(b)[k].count
              && Merged(a)[k].firstSeen == Merged(b)[k].firstSeen
              && Merged(a)[k].lastSeen == Merged(b)[k].lastSeen
  {
    MergedExact(a, k);
    MergedExact(b, k);
    Seqs.FilterPermuted(HasKey(k), a, b);
    Seqs.SameLength(OfKey(a, k), OfKey(b, k));
    if k in Merged(a) {
      AccumulatesUnique(Merged(a)[k], Merged(b)[k], OfKey(a, k), OfKey(b, k));
    }
  }

  // ---- the snapshot loses no counts ----

  ghost function TotalOver(log: seq<NormalizedEvent>, keys: seq<DedupKey>): int {
    if keys == [] then 0 else TotalOver(log, keys[..|keys|-1]) + SumCounts(OfKey(log, keys[|keys|-1]))
  }

  lemma {:induction false} TotalOverAppend(log: seq<NormalizedEvent>, e: NormalizedEvent, keys: seq<DedupKey>)
    requires forall i, j :: 0 <= i < j < |keys| ==> keys[i] != keys[j]
    ensures TotalOver(log + [e], keys) == TotalOver(log, keys) + if KeyOf(e) in keys then e.count else 0
  {
    if keys == [] {
    } else {
      var p, k := keys[..|keys|-1], keys[|keys|-1];
      assert keys == p + [k];
      TotalOverAppend(log, e, p);
      Seqs.FilterAppend(HasKey(k), log, e);
      if KeyOf(e) == k {
        Seqs.SumAppend(CountOf, OfKey(log, k), e);
      } else {
        assert OfKey(log + [e], k) == OfKey(log, k);
      }
    }
  }

  lemma {:induction false} TotalOverNothing(keys: seq<DedupKey>)
    ensures TotalOver([], keys) == 0
  {
    if keys == [] {
    } else {
      TotalOverNothing(keys[..|keys|-1]);
    }
  }

  /** Summing key by key over keys that cover the log sums the log. */
  lemma {:induction false} TotalOverAll(log: seq<NormalizedEvent>, keys: seq<DedupKey>)
    requires forall i, j :: 0 <= i < j < |keys| ==> keys[i] != keys[j]
    requires forall e :: e in log ==> KeyOf(e) in keys
    ensures TotalOver(log, keys) == SumCounts(log)
  {
    if log == [] {
      TotalOverNothing(keys);
    } else {
      var p, e := log[..|log|-1], log[|log|-1];
      assert log == p + [e];
      TotalOverAll(p, keys);
      TotalOverAppend(p, e, keys);
    }
  }

  lemma {:induction false} WrappedTotal(log: seq<NormalizedEvent>, keys: seq<DedupKey>, out: seq<NormalizedEvent>)
    requires |out| == |keys| && forall i :: 0 <= i < |keys| ==> out[i].count == Wrap32(SumCounts(OfKey(log, keys[i])))
    ensures Wrap32(SumCounts(out)) == Wrap32(TotalOver(log, keys))
  {
    if keys == [] {
    } else {
      var n := |keys| - 1;
      WrappedTotal(log, keys[..n], out[..n]);
      var x := SumCounts(OfKey(log, keys[n]));
      WrapAdd(x, SumCounts(out[..n]));
      WrapAdd(SumCounts(out[..n]), x);
      WrapAdd(TotalOver(log, keys[..n]), x);
    }
  }

  lemma SnapshotTotal(log: seq<NormalizedEvent>, keys: seq<DedupKey>, out: seq<NormalizedEvent>)
    requires Enumerates(keys, Merged(log).Keys) && |out| == |keys|
    requires forall i :: 0 <= i < |keys| ==> out[i] == Merged(log)[keys[i]]
    ensures Wrap32(SumCounts(out)) == Wrap32(SumCounts(log))
  {
    forall i | 0 <= i < |keys|
      ensures out[i].count == Wrap32(SumCounts(OfKey(log, keys[i])))
    {
      MergedExact(log, keys[i]);
    }
    WrappedTotal(log, keys, out);
    forall e | e in log
      ensures KeyOf(e) in keys
    {
      MergedExact(log, KeyOf(e));
      Seqs.FilterMember(HasKey(KeyOf(e)), log, e);
    }
    TotalOverAll(log, keys);
  }
}
