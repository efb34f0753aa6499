/** When a limited query has only one answer, up to order. */
module Limits {
  import opened Events
  import opened Scans
  import Seqs

  function SeenAfter(t: Time): NormalizedEvent -> bool {
    (e: NormalizedEvent) => e.lastSeen > t
  }

  function SeenFrom(t: Time): NormalizedEvent -> bool {
    (e: NormalizedEvent) => e.lastSeen >= t
  }

  /** How many events were last seen after `t`, and at or after it. */
  function Newer(s: seq<NormalizedEvent>, t: Time): nat {
    |Seqs.Filter(SeenAfter(t), s)|
  }

  function NotOlder(s: seq<NormalizedEvent>, t: Time): nat {
    |Seqs.Filter(SeenFrom(t), s)|
  }

  /** The limit falls inside a group of events tied in last-seen that are not all equal. */
  ghost predicate CutSplitsTie(f: Filter, all: seq<NormalizedEvent>) {
    exists x, y :: IsSplitTie(f, all, x, y)
  }

  ghost predicate IsSplitTie(f: Filter, all: seq<NormalizedEvent>, x: NormalizedEvent, y: NormalizedEvent) {
    && x in all && y in all && x != y && x.lastSeen == y.lastSeen
    && Newer(all, x.lastSeen) < f.limit < NotOlder(all, x.lastSeen)
  }

  /** Any two answers hold the same events. */
  ghost predicate IsDetermined(f: Filter, live: seq<NormalizedEvent>) {
    forall r, r' :: Answers(r, f, live) && Answers(r', f, live) ==> multiset(r) == multiset(r')
  }

  // ---- a split tie gives two answers ----

  lemma {:induction false} FilterBounded<T>(p: T -> bool, s: seq<T>)
    ensures |Seqs.Filter(p, s)| <= |s|
  {
    if s == [] {
    } else {
      FilterBounded(p, s[..|s|-1]);
    }
  }

  lemma SameCounts(a: seq<NormalizedEvent>, b: seq<NormalizedEvent>, t: Time)
    requires multiset(a) == multiset(b)
    ensures Newer(a, t) == Newer(b, t) && NotOlder(a, t) == NotOlder(b, t)
  {
    Seqs.FilterPermuted(SeenAfter(t), a, b);
    Seqs.SameLength(Seqs.Filter(SeenAfter(t), a), Seqs.Filter(SeenAfter(t), b));
    Seqs.FilterPermuted(SeenFrom(t), a, b);
    Seqs.SameLength(Seqs.Filter(SeenFrom(t), a), Seqs.Filter(SeenFrom(t), b));
  }

  lemma NewestFirstAt(s: seq<NormalizedEvent>, i: nat, j: nat)
    requires NewestFirst(s) && i <= j < |s|
    ensures s[i].lastSeen >= s[j].lastSeen
  {
    assert i < j ==> Age(s[i]) <= Age(s[j]);
  }

  /** In a newest-first list, an event later than `t` has only such events before it. */
  lemma PositionOfNewer(s: seq<NormalizedEvent>, i: nat, t: Time)
    requires NewestFirst(s) && i < |s| && s[i].lastSeen > t
    ensures Newer(s, t) > i
  {
    var p := s[..i + 1];
    forall e | e in p
      ensures SeenAfter(t)(e)
    {
      var j :| 0 <= j < |p| && p[j] == e;
      NewestFirstAt(s, j, i);
    }
    Seqs.FilterAll(SeenAfter(t), p);
    Seqs.FilterConcat(SeenAfter(t), p, s[i + 1..]);
    assert s == p + s[i + 1..];
  }

  /** And one earlier than `t` has only such events after it. */
  lemma PositionOfOlder(s: seq<NormalizedEvent>, i: nat, t: Time)
    requires NewestFirst(s) && i < |s| && s[i].lastSeen < t
    ensures NotOlder(s, t) <= i
  {
    var p := s[i..];
    forall e | e in p
      ensures !SeenFrom(t)(e)
    {
      var j :| 0 <= j < |p| && p[j] == e;
      NewestFirstAt(s, i, i + j);
    }
    Seqs.FilterNone(SeenFrom(t), p);
    FilterBounded(SeenFrom(t), s[..i]);
    Seqs.FilterConcat(SeenFrom(t), s[..i], p);
    assert s == s[..i] + p;
  }

  lemma PositionInTie(s: seq<NormalizedEvent>, i: nat, t: Time)
    requires NewestFirst(s) && i < |s| && Newer(s, t) <= i < NotOlder(s, t)
    ensures s[i].lastSeen == t
  {
    if s[i].lastSeen > t {
      PositionOfNewer(s, i, t);
    } else if s[i].lastSeen < t {
      PositionOfOlder(s, i, t);
    }
  }

  /** Exchanging two tied events keeps the list in order. */
  function Swapped(s: seq<NormalizedEvent>, i: nat, j: nat): (r: seq<NormalizedEvent>)
    requires i < |s| && j < |s|
    ensures |r| == |s|
  {
    s[i := s[j]][j := s[i]]
  }

  lemma SwappedSame(s: seq<NormalizedEvent>, i: nat, j: nat)
    requires i < |s| && j < |s|
    ensures multiset(Swapped(s, i, j)) == multiset(s)
  {
  }

  lemma SwappedInOrder(s: seq<NormalizedEvent>, i: nat, j: nat)
    requires NewestFirst(s) && i < |s| && j < |s| && s[i].lastSeen == s[j].lastSeen
    ensures NewestFirst(Swapped(s, i, j))
  {
    var r := Swapped(s, i, j);
    assert forall m :: 0 <= m < |s| ==> Age(r[m]) == Age(s[m]);
  }

  /** A newest-first arrangement of `all` with the tied `x` and `y` on the two sides of the cut. */
  lemma Straddle(all: seq<NormalizedEvent>, n: nat, x: NormalizedEvent, y: NormalizedEvent)
    returns (s: seq<NormalizedEvent>)
    requires x in all && y in all && x != y && x.lastSeen == y.lastSeen
    requires Newer(all, x.lastSeen) < n < NotOlder(all, x.lastSeen)
    ensures multiset(s) == multiset(all) && NewestFirst(s) && 0 < n < |s| && s[n - 1] == x && s[n] == y
  {
    Seqs.SortedOrders(Age, all);
    s := SortDesc(all);
    TieAtCut(s, all, n, x.lastSeen);
    Seqs.SameMembers(s, all, x);
    s := BringTo(s, n - 1, x);
    TieAtCut(s, all, n, x.lastSeen);
    Seqs.SameMembers(s, all, y);
    s := BringTo(s, n, y);
  }

  lemma TieAtCut(s: seq<NormalizedEvent>, all: seq<NormalizedEvent>, n: nat, t: Time)
    requires multiset(s) == multiset(all) && NewestFirst(s) && Newer(all, t) < n < NotOlder(all, t)
    ensures 0 < n < |s| && s[n - 1].lastSeen == t && s[n].lastSeen == t
  {
    SameCounts(s, all, t);
    FilterBounded(SeenFrom(t), s);
    PositionInTie(s, n - 1, t);
    PositionInTie(s, n, t);
  }

  /** Moves an occurrence of `x` to a position with the same last-seen, disturbing only the event that was there. */
  lemma BringTo(s: seq<NormalizedEvent>, i: nat, x: NormalizedEvent) returns (r: seq<NormalizedEvent>)
    requires NewestFirst(s) && i < |s| && x in s && s[i].lastSeen == x.lastSeen
    ensures multiset(r) == multiset(s) && NewestFirst(r) && |r| == |s| && r[i] == x
    ensures forall m :: 0 <= m < |s| && m != i && s[m] != x ==> r[m] == s[m]
  {
    var j :| 0 <= j < |s| && s[j] == x;
    r := Swapped(s, i, j);
    SwappedSame(s, i, j);
    SwappedInOrder(s, i, j);
  }

  lemma LastDiffers(p: seq<NormalizedEvent>, x: NormalizedEvent, y: NormalizedEvent)
    requires x != y
    ensures multiset(p + [x]) != multiset(p + [y])
  {
    assert multiset(p + [x])[x] == multiset(p)[x] + 1;
    assert multiset(p + [y])[x] == multiset(p)[x];
  }

  lemma CutAt(s: seq<NormalizedEvent>, f: Filter, live: seq<NormalizedEvent>)
    requires NewestFirst(s) && multiset(s) == multiset(Scan(f, live)) && 0 < f.limit < |s|
    ensures Answers(s[..f.limit], f, live)
  {
    CutAnswers(s, f, live);
  }

  /** The answers on the two sides of a swap across the cut. */
  lemma SwapAtCut(s: seq<NormalizedEvent>, n: nat)
    requires NewestFirst(s) && 0 < n < |s| && s[n - 1] != s[n] && s[n - 1].lastSeen == s[n].lastSeen
    ensures var s' := Swapped(s, n - 1, n);
            NewestFirst(s') && multiset(s') == multiset(s) && multiset(s[..n]) != multiset(s'[..n])
  {
    var s' := Swapped(s, n - 1, n);
    SwappedSame(s, n - 1, n);
    SwappedInOrder(s, n - 1, n);
    CutsDiffer(s, s', n);
  }

  lemma CutsDiffer(s: seq<NormalizedEvent>, s': seq<NormalizedEvent>, n: nat)
    requires 0 < n <= |s| == |s'| && s[n - 1] != s'[n - 1] && s[..n - 1] == s'[..n - 1]
    ensures multiset(s[..n]) != multiset(s'[..n])
  {
    assert s[..n] == s[..n - 1] + [s[n - 1]];
    assert s'[..n] == s[..n - 1] + [s'[n - 1]];
    LastDiffers(s[..n - 1], s[n - 1], s'[n - 1]);
  }

  lemma TwoAnswers(f: Filter, live: seq<NormalizedEvent>, x: NormalizedEvent, y: NormalizedEvent)
    returns (r: seq<NormalizedEvent>, r': seq<NormalizedEvent>)
    requires IsSplitTie(f, Scan(f, live), x, y)
    ensures Answers(r, f, live) && Answers(r', f, live) && multiset(r) != multiset(r')
  {
    var n := f.limit;
    var s := Straddle(Scan(f, live), n, x, y);
    SwapAtCut(s, n);
    r, r' := s[..n], Swapped(s, n - 1, n)[..n];
    CutAt(s, f, live);
    CutAt(Swapped(s, n - 1, n), f, live);
  }

  // ---- two answers give a split tie ----

  lemma EqualWithin<T>(a: multiset<T>, b: multiset<T>)
    requires a <= b && |a| == |b|
    ensures a == b
  {
    assert b == a + (b - a);
    assert |b| == |a| + |b - a|;
  }

  lemma MoreOfOne<T>(a: multiset<T>, b: multiset<T>)
    ensures |a| == |b| && a != b ==> exists x :: x in a && a[x] > b[x]
  {
    if |a| == |b| && forall x :: x in a ==> a[x] <= b[x] {
      EqualWithin(a, b);
    }
  }

  lemma SmallerWithin<T>(a: multiset<T>, b: multiset<T>)
    requires a <= b
    ensures |a| <= |b|
  {
    assert b == a + (b - a);
  }

  lemma {:induction false} FilterCount<T>(p: T -> bool, s: seq<T>, x: T)
    ensures multiset(Seqs.Filter(p, s))[x] == if p(x) then multiset(s)[x] else 0
  {
    if s == [] {
    } else {
      var init, last := s[..|s|-1], s[|s|-1];
      assert s == init + [last];
      FilterCount(p, init, x);
    }
  }

  /** Whatever an answer leaves out is not newer than what it holds, so it holds everything newer. */
  lemma HoldsNewer(r: seq<NormalizedEvent>, f: Filter, live: seq<NormalizedEvent>, x: NormalizedEvent)
    requires Answers(r, f, live) && x in r
    ensures Newer(Scan(f, live), x.lastSeen) < |r|
  {
    var all, t := Scan(f, live), x.lastSeen;
    var newer := Seqs.Filter(SeenAfter(t), all);
    forall e
      ensures (multiset(newer) + multiset{x})[e] <= multiset(r)[e]
    {
      FilterCount(SeenAfter(t), all, e);
      assert e.lastSeen > t ==> e !in multiset(all) - multiset(r);
    }
    SmallerWithin(multiset(newer) + multiset{x}, multiset(r));
  }

  /** And everything it holds is no older than what it leaves out. */
  lemma HoldsNothingOlder(r: seq<NormalizedEvent>, f: Filter, live: seq<NormalizedEvent>, x: NormalizedEvent)
    requires Answers(r, f, live) && x in multiset(Scan(f, live)) - multiset(r)
    ensures |r| < NotOlder(Scan(f, live), x.lastSeen)
  {
    var all, t := Scan(f, live), x.lastSeen;
    var from := Seqs.Filter(SeenFrom(t), all);
    forall e
      ensures (multiset(r) + multiset{x})[e] <= multiset(from)[e]
    {
      FilterCount(SeenFrom(t), all, e);
      assert e in r <==> e in multiset(r);
    }
    SmallerWithin(multiset(r) + multiset{x}, multiset(from));
  }

  lemma TwoGiveSplitTie(f: Filter, live: seq<NormalizedEvent>, r: seq<NormalizedEvent>, r': seq<NormalizedEvent>)
    requires Answers(r, f, live) && Answers(r', f, live) && multiset(r) != multiset(r')
    ensures CutSplitsTie(f, Scan(f, live))
  {
    var all := Scan(f, live);
    MoreOfOne(multiset(r), multiset(r'));
    MoreOfOne(multiset(r'), multiset(r));
    var x :| x in multiset(r) && multiset(r)[x] > multiset(r')[x];
    var y :| y in multiset(r') && multiset(r')[y] > multiset(r)[y];
    assert x in multiset(all) - multiset(r') && y in multiset(all) - multiset(r);
    assert x in r && y in r';
    HoldsNewer(r, f, live, x);
    HoldsNothingOlder(r', f, live, x);
    assert IsSplitTie(f, all, x, y);
  }

  /** A query has one answer, up to order, if and only if its limit does not split a tie of unequal events. */
  lemma DeterminedIff(f: Filter, live: seq<NormalizedEvent>)
    ensures IsDetermined(f, live) <==> !CutSplitsTie(f, Scan(f, live))
  {
    if CutSplitsTie(f, Scan(f, live)) {
      var x, y :| IsSplitTie(f, Scan(f, live), x, y);
      var r, r' := TwoAnswers(f, live, x, y);
    }
    if !IsDetermined(f, live) {
      var r, r' :| Answers(r, f, live) && Answers(r', f, live) && multiset(r) != multiset(r');
      TwoGiveSplitTie(f, live, r, r');
    }
  }
}
