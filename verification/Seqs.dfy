/** Facts about sequences and their multisets used throughout. */
module Seqs {

  lemma SplitAt<T>(s: seq<T>, x: T) returns (l: seq<T>, r: seq<T>)
    requires x in s
    ensures s == l + [x] + r
    ensures multiset(s) == multiset(l + r) + multiset{x}
  {
    var i :| 0 <= i < |s| && s[i] == x;
    l, r := s[..i], s[i + 1..];
  }

  /** Taking the last element of one arrangement out of another leaves arrangements of the same elements. */
  lemma SplitLast<T>(a: seq<T>, b: seq<T>) returns (l: seq<T>, r: seq<T>)
    requires a != [] && multiset(a) == multiset(b)
    ensures b == l + [a[|a|-1]] + r
    ensures multiset(a[..|a|-1]) == multiset(l + r)
  {
    var last := a[|a|-1];
    assert a == a[..|a|-1] + [last];
    assert last in multiset(b);
    l, r := SplitAt(b, last);
    assert multiset(a[..|a|-1]) == multiset(a) - multiset{last};
  }

  /** `a` holds what `b` does and one `x` more. */
  ghost predicate OneMore<T>(a: seq<T>, b: seq<T>, x: T) {
    multiset(a) == multiset(b) + multiset{x}
  }

  lemma OneMoreAtEnd<T>(a: seq<T>, b: seq<T>, x: T)
    requires a == b + [x]
    ensures OneMore(a, b, x)
  {
  }

  lemma OneMoreBetween<T>(a: seq<T>, b: seq<T>, l: seq<T>, x: T, r: seq<T>)
    requires a == l + [x] + r && b == l + r
    ensures OneMore(a, b, x)
  {
  }

  lemma OneMoreBefore<T>(a: seq<T>, b: seq<T>, x: T, a': seq<T>, b': seq<T>, y: T)
    requires OneMore(a, b, x) && a' == a + [y] && b' == b + [y]
    ensures OneMore(a', b', x)
  {
  }

  lemma SameMembers<T>(a: seq<T>, b: seq<T>, x: T)
    requires multiset(a) == multiset(b)
    ensures x in a <==> x in b
  {
    assert x in a <==> x in multiset(a);
    assert x in b <==> x in multiset(b);
  }

  lemma SameLength<T>(a: seq<T>, b: seq<T>)
    requires multiset(a) == multiset(b)
    ensures |a| == |b|
  {
    assert |multiset(a)| == |multiset(b)|;
  }

  ghost function Count<T>(s: seq<T>, x: T): nat {
    if s == [] then 0 else Count(s[..|s|-1], x) + if s[|s|-1] == x then 1 else 0
  }

  lemma CountAppend<T>(s: seq<T>, y: T, x: T)
    ensures Count(s + [y], x) == Count(s, x) + if y == x then 1 else 0
  {
    assert (s + [y])[..|s|] == s;
  }

  function Map<A, B>(f: A -> B, s: seq<A>): (r: seq<B>)
    ensures |r| == |s|
    ensures forall i :: 0 <= i < |s| ==> r[i] == f(s[i])
  {
    if s == [] then [] else Map(f, s[..|s|-1]) + [f(s[|s|-1])]
  }

  lemma MapConcat<A, B>(f: A -> B, a: seq<A>, b: seq<A>)
    ensures Map(f, a + b) == Map(f, a) + Map(f, b)
  {
  }

  lemma MapOneMore<A, B>(f: A -> B, l: seq<A>, x: A, r: seq<A>)
    ensures OneMore(Map(f, l + [x] + r), Map(f, l + r), f(x))
  {
    MapConcat(f, l + [x], r);
    MapConcat(f, l, [x]);
    MapConcat(f, l, r);
    OneMoreBetween(Map(f, l + [x] + r), Map(f, l + r), Map(f, l), f(x), Map(f, r));
  }

  lemma {:induction false} MapPermuted<A, B>(f: A -> B, a: seq<A>, b: seq<A>)
    requires multiset(a) == multiset(b)
    ensures multiset(Map(f, a)) == multiset(Map(f, b))
    decreases |a|
  {
    if a == [] {
      SameLength(a, b);
    } else {
      var l, r := SplitLast(a, b);
      var p, last := a[..|a|-1], a[|a|-1];
      MapPermuted(f, p, l + r);
      OneMoreAtEnd(Map(f, a), Map(f, p), f(last));
      MapOneMore(f, l, last, r);
    }
  }

  function Filter<T>(p: T -> bool, s: seq<T>): seq<T> {
    if s == [] then []
    else Filter(p, s[..|s|-1]) + (if p(s[|s|-1]) then [s[|s|-1]] else [])
  }

  lemma FilterAppend<T>(p: T -> bool, s: seq<T>, x: T)
    ensures Filter(p, s + [x]) == Filter(p, s) + (if p(x) then [x] else [])
  {
    assert (s + [x])[..|s|] == s;
  }

  lemma {:induction false} FilterMember<T>(p: T -> bool, s: seq<T>, x: T)
    ensures x in Filter(p, s) <==> x in s && p(x)
  {
    if s == [] {
    } else {
      FilterMember(p, s[..|s|-1], x);
      assert s == s[..|s|-1] + [s[|s|-1]];
    }
  }

  lemma {:induction false} FilterConcat<T>(p: T -> bool, a: seq<T>, b: seq<T>)
    ensures Filter(p, a + b) == Filter(p, a) + Filter(p, b)
  {
    if b == [] {
      assert a + b == a;
    } else {
      assert (a + b)[..|a + b|-1] == a + b[..|b|-1];
      FilterConcat(p, a, b[..|b|-1]);
    }
  }

  lemma {:induction false} FilterPermuted<T>(p: T -> bool, a: seq<T>, b: seq<T>)
    requires multiset(a) == multiset(b)
    ensures multiset(Filter(p, a)) == multiset(Filter(p, b))
    decreases |a|
  {
    if a == [] {
      SameLength(a, b);
    } else {
      var l, r := SplitLast(a, b);
      FilterPermuted(p, a[..|a|-1], l + r);
      FilterConcat(p, l + [a[|a|-1]], r);
      FilterAppend(p, l, a[|a|-1]);
      FilterConcat(p, l, r);
    }
  }

  lemma {:induction false} FilterAll<T>(p: T -> bool, s: seq<T>)
    requires forall x :: x in s ==> p(x)
    ensures Filter(p, s) == s
  {
    if s == [] {
    } else {
      assert s == s[..|s|-1] + [s[|s|-1]];
      FilterAll(p, s[..|s|-1]);
    }
  }

  lemma {:induction false} FilterNone<T>(p: T -> bool, s: seq<T>)
    requires forall x :: x in s ==> !p(x)
    ensures Filter(p, s) == []
  {
    if s == [] {
    } else {
      assert s == s[..|s|-1] + [s[|s|-1]];
      FilterNone(p, s[..|s|-1]);
    }
  }

  /** A condition that is the disjoint union of two others. */
  lemma {:induction false} FilterSplit<T(!new)>(r: T -> bool, p: T -> bool, q: T -> bool, s: seq<T>)
    requires forall x :: (r(x) <==> p(x) || q(x)) && !(p(x) && q(x))
    ensures multiset(Filter(r, s)) == multiset(Filter(p, s)) + multiset(Filter(q, s))
  {
    if s == [] {
    } else {
      FilterSplit(r, p, q, s[..|s|-1]);
    }
  }

  // ---- sums ----

  function Sum<T>(weight: T -> int, s: seq<T>): int {
    if s == [] then 0 else Sum(weight, s[..|s|-1]) + weight(s[|s|-1])
  }

  lemma SumAppend<T>(weight: T -> int, s: seq<T>, x: T)
    ensures Sum(weight, s + [x]) == Sum(weight, s) + weight(x)
  {
    assert (s + [x])[..|s|] == s;
  }

  lemma {:induction false} SumConcat<T>(weight: T -> int, a: seq<T>, b: seq<T>)
    ensures Sum(weight, a + b) == Sum(weight, a) + Sum(weight, b)
  {
    if b == [] {
      assert a + b == a;
    } else {
      assert (a + b)[..|a + b|-1] == a + b[..|b|-1];
      SumConcat(weight, a, b[..|b|-1]);
    }
  }

  lemma {:induction false} SumPermuted<T>(weight: T -> int, a: seq<T>, b: seq<T>)
    requires multiset(a) == multiset(b)
    ensures Sum(weight, a) == Sum(weight, b)
    decreases |a|
  {
    if a == [] {
      SameLength(a, b);
    } else {
      var l, r := SplitLast(a, b);
      SumPermuted(weight, a[..|a|-1], l + r);
      SumConcat(weight, l + [a[|a|-1]], r);
      SumAppend(weight, l, a[|a|-1]);
      SumConcat(weight, l, r);
    }
  }

  lemma {:induction false} SumZero<T>(weight: T -> int, s: seq<T>)
    requires forall x :: x in s ==> weight(x) == 0
    ensures Sum(weight, s) == 0
  {
    if s == [] {
    } else {
      assert s == s[..|s|-1] + [s[|s|-1]];
      SumZero(weight, s[..|s|-1]);
    }
  }

  // ---- sorting by a time, as `sort.Slice` does: any sorted permutation ----

  ghost predicate Ascending<T>(key: T -> int, s: seq<T>) {
    forall i, j :: 0 <= i < j < |s| ==> key(s[i]) <= key(s[j])
  }

  /** Put `x` after everything that does not sort behind it. */
  function Insert<T>(key: T -> int, s: seq<T>, x: T): (r: seq<T>)
    ensures |r| == |s| + 1
  {
    if s == [] || key(s[|s|-1]) <= key(x) then s + [x]
    else Insert(key, s[..|s|-1], x) + [s[|s|-1]]
  }

  lemma {:induction false} InsertPermutes<T>(key: T -> int, s: seq<T>, x: T)
    ensures multiset(Insert(key, s, x)) == multiset(s) + multiset{x}
  {
    if s == [] || key(s[|s|-1]) <= key(x) {
    } else {
      InsertPermutes(key, s[..|s|-1], x);
      assert s == s[..|s|-1] + [s[|s|-1]];
    }
  }

  lemma AscendingAppend<T>(key: T -> int, s: seq<T>, x: T)
    requires Ascending(key, s) && forall y :: y in s ==> key(y) <= key(x)
    ensures Ascending(key, s + [x])
  {
    assert forall i :: 0 <= i < |s| ==> s[i] in s;
  }

  lemma {:induction false} FilterAscending<T>(key: T -> int, p: T -> bool, s: seq<T>)
    requires Ascending(key, s)
    ensures Ascending(key, Filter(p, s))
  {
    if s == [] {
    } else {
      var init, last := s[..|s|-1], s[|s|-1];
      FilterAscending(key, p, init);
      forall y | y in Filter(p, init)
        ensures key(y) <= key(last)
      {
        FilterMember(p, init, y);
      }
      AscendingAppend(key, Filter(p, init), last);
    }
  }

  lemma {:induction false} InsertOrders<T>(key: T -> int, s: seq<T>, x: T)
    requires Ascending(key, s)
    ensures Ascending(key, Insert(key, s, x))
  {
    if s == [] || key(s[|s|-1]) <= key(x) {
      AscendingAppend(key, s, x);
    } else {
      var p, last := s[..|s|-1], s[|s|-1];
      InsertOrders(key, p, x);
      InsertPermutes(key, p, x);
      forall y | y in Insert(key, p, x)
        ensures key(y) <= key(last)
      {
        assert y in multiset(Insert(key, p, x));
      }
      AscendingAppend(key, Insert(key, p, x), last);
    }
  }

  /** Stable insertion sort. */
  function Sorted<T>(key: T -> int, s: seq<T>): (r: seq<T>)
    ensures |r| == |s|
  {
    if s == [] then [] else Insert(key, Sorted(key, s[..|s|-1]), s[|s|-1])
  }

  lemma {:induction false} SortedOrders<T>(key: T -> int, s: seq<T>)
    ensures Ascending(key, Sorted(key, s))
    ensures multiset(Sorted(key, s)) == multiset(s)
  {
    if s == [] {
    } else {
      var p := s[..|s|-1];
      SortedOrders(key, p);
      InsertOrders(key, Sorted(key, p), s[|s|-1]);
      InsertPermutes(key, Sorted(key, p), s[|s|-1]);
      assert s == p + [s[|s|-1]];
    }
  }

  /** Callers may rely only on getting some sorted permutation. */
  method SortSlice<T>(s: seq<T>, key: T -> int) returns (r: seq<T>)
    ensures multiset(r) == multiset(s)
    ensures Ascending(key, r)
  {
    SortedOrders(key, s);
    r := Sorted(key, s);
  }
}
