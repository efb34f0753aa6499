/** The depth-bounded walk up ownerReferences, over an arbitrary and possibly cyclic object graph. */
module OwnerChains {
  import opened Events
  import opened Correlation

  const MAX_CHAIN_DEPTH := 10
  const LAST: nat := MAX_CHAIN_DEPTH - 1

  /** `controller` is absent, false or true, as the optional field of an ownerReference. */
  datatype Controller = Absent | Present(value: bool)
  datatype OwnerReference = OwnerReference(kind: string, name: string, controller: Controller)

  datatype Object = Object(kind: string, name: string)

  /** What fetching an object gives: its owners and UID, or an error. */
  datatype Lookup = Found(owners: seq<OwnerReference>, uid: string) | Failed

  /** The objects of one namespace, as the API server answers for the kinds that are fetched. */
  type Cluster = Object -> Lookup

  const FETCHED_KINDS: set<string> :=
    {"Pod", "ReplicaSet", "Deployment", "StatefulSet", "DaemonSet", "Job", "CronJob", "PersistentVolumeClaim"}

  /** An unknown kind is not an error: it has no owners and no UID. */
  function GetOwnerRefs(c: Cluster, o: Object): Lookup {
    if o.kind in FETCHED_KINDS then c(o) else Found([], "")
  }

  /** The first controlling owner, else the first owner. */
  function NextOwner(owners: seq<OwnerReference>): OwnerReference
    requires owners != []
  {
    if exists i :: 0 <= i < |owners| && owners[i].controller == Present(true) then owners[FirstController(owners)]
    else owners[0]
  }

  function FirstController(owners: seq<OwnerReference>): (i: nat)
    requires exists i :: 0 <= i < |owners| && owners[i].controller == Present(true)
    ensures i < |owners| && owners[i].controller == Present(true)
    ensures forall j :: 0 <= j < i ==> owners[j].controller != Present(true)
  {
    if owners[0].controller == Present(true) then 0
    else
      assert exists i :: 0 <= i < |owners[1..]| && owners[1..][i].controller == Present(true) by {
        var i :| 0 <= i < |owners| && owners[i].controller == Present(true);
        assert owners[1..][i - 1] == owners[i];
      }
      1 + FirstController(owners[1..])
  }

  /** The first owner that is a controller, or the first of all when none is. */
  ghost predicate IsChosen(owners: seq<OwnerReference>, i: int) {
    && 0 <= i < |owners|
    && (forall j :: 0 <= j < i ==> owners[j].controller != Present(true))
    && (owners[i].controller == Present(true)
        || (i == 0 && forall j :: 0 <= j < |owners| ==> owners[j].controller != Present(true)))
  }

  lemma NextIsChosen(owners: seq<OwnerReference>)
    requires owners != []
    ensures exists i :: IsChosen(owners, i) && NextOwner(owners) == owners[i]
  {
    if i :| 0 <= i < |owners| && owners[i].controller == Present(true) {
      assert IsChosen(owners, FirstController(owners));
    } else {
      assert IsChosen(owners, 0);
    }
  }

  method FollowOwner(owners: seq<OwnerReference>) returns (next: OwnerReference)
    requires owners != []
    ensures next == NextOwner(owners)
    ensures exists i :: IsChosen(owners, i) && next == owners[i]
  {
    NextIsChosen(owners);
    next := owners[0];
    for i := 0 to |owners|
      invariant next == owners[0]
      invariant forall j :: 0 <= j < i ==> owners[j].controller != Present(true)
    {
      if owners[i].controller == Present(true) {
        next := owners[i];
        return;
      }
    }
  }

  /** The owner that the walk moves to, if the object is found and has one. */
  function Up(c: Cluster, o: Object): (r: seq<Object>)
    ensures |r| <= 1
  {
    match GetOwnerRefs(c, o)
    case Failed => []
    case Found(owners, _) => if owners == [] then [] else [Object(NextOwner(owners).kind, NextOwner(owners).name)]
  }

  /** The n-th iterate of the owner choice: a singleton, or empty once it has run out. */
  function Ancestor(c: Cluster, o: Object, n: nat): (r: seq<Object>)
    ensures |r| <= 1
  {
    if n == 0 then [o]
    else
      var p := Ancestor(c, o, n - 1);
      if p == [] then [] else Up(c, p[0])
  }

  ghost predicate IsRoot(c: Cluster, o: Object) {
    GetOwnerRefs(c, o).Found? && GetOwnerRefs(c, o).owners == []
  }

  ghost predicate RootAt(c: Cluster, o: Object, n: nat) {
    Ancestor(c, o, n) != [] && IsRoot(c, Ancestor(c, o, n)[0])
  }

  ghost predicate FailureAt(c: Cluster, o: Object, n: nat) {
    Ancestor(c, o, n) != [] && GetOwnerRefs(c, Ancestor(c, o, n)[0]).Failed?
  }

  /** A root is within the depth bound. */
  ghost predicate ReachesRoot(c: Cluster, o: Object) {
    exists n :: 0 <= n < MAX_CHAIN_DEPTH && RootAt(c, o, n)
  }

  /** A failing lookup is within the depth bound. */
  ghost predicate ReachesFailure(c: Cluster, o: Object) {
    exists n :: 0 <= n < MAX_CHAIN_DEPTH && FailureAt(c, o, n)
  }

  method ResolveOwnerChain(c: Cluster, start: Object) returns (chain: seq<OwnerRef>, failed: bool)
    ensures IsWalk(c, start, chain, failed) && WalkInFields(c, start, chain, failed)
  {
    chain, failed := Walk(c, start);
    WalksInFields(c, start, chain, failed);
  }

  method OwnerObject(owners: seq<OwnerReference>) returns (o: Object)
    requires owners != []
    ensures o == Object(NextOwner(owners).kind, NextOwner(owners).name)
  {
    var next := FollowOwner(owners);
    o := Object(next.kind, next.name);
  }

  method Walk(c: Cluster, start: Object) returns (chain: seq<OwnerRef>, failed: bool)
    ensures IsWalk(c, start, chain, failed)
  {
    chain, failed := [], false;
    var current := start;
    for i := 0 to MAX_CHAIN_DEPTH
      invariant |chain| == i && Ancestor(c, start, i) == [current]
      invariant IsIterates(c, start, chain)
    {
      var found := GetOwnerRefs(c, current);
      if found.Failed? {
        return chain, true;
      }
      chain := chain + [OwnerRef(current.kind, current.name, found.uid)];
      if |found.owners| == 0 {
        return chain, false;
      }
      current := OwnerObject(found.owners);
    }
  }

  function ObjectOf(r: OwnerRef): Object {
    Object(r.kind, r.name)
  }

  /** Entry n is the n-th iterate, with the UID its lookup gave. */
  ghost predicate IsIterates(c: Cluster, start: Object, chain: seq<OwnerRef>) {
    forall n :: 0 <= n < |chain| ==>
      && Ancestor(c, start, n) == [ObjectOf(chain[n])]
      && GetOwnerRefs(c, ObjectOf(chain[n])).Found?
      && chain[n].uid == GetOwnerRefs(c, ObjectOf(chain[n])).uid
  }

  /** The chain is the longest prefix of found iterates up to the depth bound; `failed` says why it stopped short. */
  ghost predicate IsWalk(c: Cluster, start: Object, chain: seq<OwnerRef>, failed: bool) {
    && |chain| <= MAX_CHAIN_DEPTH
    && IsIterates(c, start, chain)
    && (failed ==> |chain| < MAX_CHAIN_DEPTH && FailureAt(c, start, |chain|))
    && (!failed && |chain| < MAX_CHAIN_DEPTH ==> chain != [] && IsRoot(c, ObjectOf(chain[|chain| - 1])))
  }

  /** The walk got to the top. */
  ghost predicate EndsAtRoot(c: Cluster, chain: seq<OwnerRef>, failed: bool) {
    !failed && chain != [] && IsRoot(c, ObjectOf(chain[|chain| - 1]))
  }

  // ---- the same, field by field ----

  /** The kinds that are fetched. */
  ghost predicate IsFetched(kind: string) {
    || kind == "Pod" || kind == "ReplicaSet" || kind == "Deployment" || kind == "StatefulSet"
    || kind == "DaemonSet" || kind == "Job" || kind == "CronJob" || kind == "PersistentVolumeClaim"
  }

  /** The entry records the UID that was fetched; an object of another kind has none. */
  ghost predicate EntryInFields(c: Cluster, r: OwnerRef) {
    if IsFetched(r.kind) then c(Object(r.kind, r.name)).Found? && c(Object(r.kind, r.name)).uid == r.uid
    else r.uid == ""
  }

  /** The chosen owner of the entry's object. */
  ghost predicate IsOwner(c: Cluster, r: OwnerRef, kind: string, name: string) {
    && IsFetched(r.kind) && c(Object(r.kind, r.name)).Found?
    && var owners := c(Object(r.kind, r.name)).owners;
       exists i :: IsChosen(owners, i) && owners[i].kind == kind && owners[i].name == name
  }

  ghost predicate HasNoOwner(c: Cluster, r: OwnerRef) {
    IsFetched(r.kind) ==> c(Object(r.kind, r.name)).Found? && c(Object(r.kind, r.name)).owners == []
  }

  ghost predicate CannotBeFetched(c: Cluster, kind: string, name: string) {
    IsFetched(kind) && c(Object(kind, name)).Failed?
  }

  /**
    The chain starts at the object, goes from each entry to its chosen owner, and has at most ten
    entries. It fails at an object that cannot be fetched, and otherwise ends before the tenth
    entry only where there is no owner.
   */
  ghost predicate WalkInFields(c: Cluster, start: Object, chain: seq<OwnerRef>, failed: bool) {
    && |chain| <= 10
    && (chain != [] ==> chain[0].kind == start.kind && chain[0].name == start.name)
    && (forall n :: 0 <= n < |chain| ==> EntryInFields(c, chain[n]))
    && (forall n :: 0 <= n < |chain| - 1 ==> IsOwner(c, chain[n], chain[n + 1].kind, chain[n + 1].name))
    && (failed ==> if chain == [] then CannotBeFetched(c, start.kind, start.name)
                   else exists kind, name ::
                     IsOwner(c, chain[|chain| - 1], kind, name) && CannotBeFetched(c, kind, name))
    && (!failed && |chain| < 10 ==> chain != [] && HasNoOwner(c, chain[|chain| - 1]))
  }

  lemma FetchedKinds(kind: string)
    ensures kind in FETCHED_KINDS <==> IsFetched(kind)
  {
  }

  lemma UpInFields(c: Cluster, r: OwnerRef)
    requires Up(c, ObjectOf(r)) != []
    ensures IsOwner(c, r, Up(c, ObjectOf(r))[0].kind, Up(c, ObjectOf(r))[0].name)
  {
    FetchedKinds(r.kind);
    NextIsChosen(c(ObjectOf(r)).owners);
  }

  lemma LookupInFields(c: Cluster, o: Object)
    ensures GetOwnerRefs(c, o) == if IsFetched(o.kind) then c(o) else Found([], "")
  {
    FetchedKinds(o.kind);
  }

  lemma WalksInFields(c: Cluster, start: Object, chain: seq<OwnerRef>, failed: bool)
    requires IsWalk(c, start, chain, failed)
    ensures WalkInFields(c, start, chain, failed)
  {
    forall n | 0 <= n < |chain|
      ensures EntryInFields(c, chain[n])
    {
      LookupInFields(c, ObjectOf(chain[n]));
    }
    forall n | 0 <= n < |chain| - 1
      ensures IsOwner(c, chain[n], chain[n + 1].kind, chain[n + 1].name)
    {
      assert Ancestor(c, start, n + 1) == [ObjectOf(chain[n + 1])];
      UpInFields(c, chain[n]);
    }
    if failed {
      var o := Ancestor(c, start, |chain|)[0];
      LookupInFields(c, o);
      if chain != [] {
        var last := chain[|chain| - 1];
        assert Ancestor(c, start, |chain| - 1) == [ObjectOf(last)];
        UpInFields(c, last);
        assert IsOwner(c, last, o.kind, o.name) && CannotBeFetched(c, o.kind, o.name);
      }
    } else if |chain| < 10 {
      LookupInFields(c, ObjectOf(chain[|chain| - 1]));
    }
  }

  lemma {:induction false} AncestorOfAncestor(c: Cluster, o: Object, m: nat, n: nat)
    requires Ancestor(c, o, m) != []
    ensures Ancestor(c, Ancestor(c, o, m)[0], n) == Ancestor(c, o, m + n)
  {
    if n == 0 {
    } else {
      AncestorOfAncestor(c, o, m, n - 1);
    }
  }

  lemma {:induction false} AncestorsBelow(c: Cluster, o: Object, m: nat, n: nat)
    requires m <= n && Ancestor(c, o, n) != []
    ensures Ancestor(c, o, m) != []
  {
    if m == n {
    } else {
      AncestorsBelow(c, o, m, n - 1);
    }
  }

  lemma {:induction false} NothingAboveRoot(c: Cluster, o: Object, m: nat, n: nat)
    requires RootAt(c, o, m) && m < n
    ensures Ancestor(c, o, n) == []
  {
    if n == m + 1 {
    } else {
      NothingAboveRoot(c, o, m, n - 1);
    }
  }

  lemma {:induction false} NothingAboveFailure(c: Cluster, o: Object, m: nat, n: nat)
    requires FailureAt(c, o, m) && m < n
    ensures Ancestor(c, o, n) == []
  {
    if n == m + 1 {
    } else {
      NothingAboveFailure(c, o, m, n - 1);
    }
  }

  lemma {:induction false} StopsAtRoot(c: Cluster, start: Object, chain: seq<OwnerRef>, failed: bool, n: nat)
    requires IsWalk(c, start, chain, failed)
    requires n < MAX_CHAIN_DEPTH && RootAt(c, start, n)
    ensures !failed && |chain| == n + 1 && ObjectOf(chain[n]) == Ancestor(c, start, n)[0]
  {
    NothingAboveRoot(c, start, n, n + 1);
    if |chain| <= n {
      if failed {
        if |chain| < n {
          NothingAboveFailure(c, start, |chain|, n);
        }
      } else {
        var last := |chain| - 1;
        assert Ancestor(c, start, last) == [ObjectOf(chain[last])];
        NothingAboveRoot(c, start, last, n);
      }
    }
  }

  /** A walk ends at a root exactly when the iterates reach one within the depth bound. */
  lemma {:induction false} EndsAtRootIff(c: Cluster, start: Object, chain: seq<OwnerRef>, failed: bool)
    requires IsWalk(c, start, chain, failed)
    ensures EndsAtRoot(c, chain, failed) <==> ReachesRoot(c, start)
  {
    if EndsAtRoot(c, chain, failed) {
      assert RootAt(c, start, |chain| - 1);
    }
    if n: nat :| n < MAX_CHAIN_DEPTH && RootAt(c, start, n) {
      StopsAtRoot(c, start, chain, failed, n);
    }
  }

  /** A walk fails exactly when the iterates reach a failing lookup within the depth bound. */
  lemma {:induction false} FailsIff(c: Cluster, start: Object, chain: seq<OwnerRef>, failed: bool)
    requires IsWalk(c, start, chain, failed)
    ensures failed <==> ReachesFailure(c, start)
  {
    if n: nat :| n < MAX_CHAIN_DEPTH && FailureAt(c, start, n) {
      if !failed && |chain| <= n {
        assert RootAt(c, start, |chain| - 1);
        NothingAboveRoot(c, start, |chain| - 1, n);
      }
    }
  }

  /** A walk that neither fails nor finds a root is cut off at the depth bound. */
  lemma {:induction false} CutOffAt(c: Cluster, start: Object, chain: seq<OwnerRef>)
    requires IsWalk(c, start, chain, false) && !ReachesRoot(c, start)
    ensures |chain| == MAX_CHAIN_DEPTH && Ancestor(c, start, LAST) == [ObjectOf(chain[LAST])]
    ensures !IsRoot(c, ObjectOf(chain[LAST]))
  {
    EndsAtRootIff(c, start, chain, false);
  }

  /** If two walks share an object and both end at a root, they end at the same entry. */
  lemma {:induction false} WalksAreConfluent(c: Cluster, a: Object, b: Object, chainA: seq<OwnerRef>,
                                             chainB: seq<OwnerRef>, failedA: bool, failedB: bool, i: nat, j: nat)
    requires IsWalk(c, a, chainA, failedA) && EndsAtRoot(c, chainA, failedA)
    requires IsWalk(c, b, chainB, failedB) && EndsAtRoot(c, chainB, failedB)
    requires i < |chainA| && j < |chainB| && ObjectOf(chainA[i]) == ObjectOf(chainB[j])
    ensures chainA[|chainA| - 1] == chainB[|chainB| - 1]
  {
    RootAbove(c, a, chainA, failedA, i);
    RootAbove(c, b, chainB, failedB, j);
    RootIsUnique(c, ObjectOf(chainA[i]), |chainA| - 1 - i, |chainB| - 1 - j);
  }

  lemma {:induction false} RootAbove(c: Cluster, start: Object, chain: seq<OwnerRef>, failed: bool, i: nat)
    requires IsWalk(c, start, chain, failed) && EndsAtRoot(c, chain, failed) && i < |chain|
    ensures var last := chain[|chain| - 1];
            && Ancestor(c, ObjectOf(chain[i]), |chain| - 1 - i) == [ObjectOf(last)]
            && IsRoot(c, ObjectOf(last)) && last.uid == GetOwnerRefs(c, ObjectOf(last)).uid
  {
    AncestorOfAncestor(c, start, i, |chain| - 1 - i);
  }

  lemma {:induction false} RootIsUnique(c: Cluster, o: Object, m: nat, n: nat)
    requires RootAt(c, o, m) && RootAt(c, o, n)
    ensures m == n
  {
    if m < n {
      NothingAboveRoot(c, o, m, n);
    } else if n < m {
      NothingAboveRoot(c, o, n, m);
    }
  }

  /** So the events they enrich are correlated in one group. */
  lemma {:induction false} SharedOwnerSharesGroup(c: Cluster, d: NormalizedEvent, e: NormalizedEvent, failedD: bool,
                                                  failedE: bool, i: nat, j: nat)
    requires IsWalk(c, Involved(d), d.ownerChain, failedD) && EndsAtRoot(c, d.ownerChain, failedD)
    requires IsWalk(c, Involved(e), e.ownerChain, failedE) && EndsAtRoot(c, e.ownerChain, failedE)
    requires i < |d.ownerChain| && j < |e.ownerChain| && ObjectOf(d.ownerChain[i]) == ObjectOf(e.ownerChain[j])
    ensures GroupIdFor(d) == GroupIdFor(e)
  {
    WalksAreConfluent(c, Involved(d), Involved(e),
                      d.ownerChain, e.ownerChain, failedD, failedE, i, j);
  }

  // ---- exactly when a shared owner means a shared group ----

  /** The walks from `a` and `b` pass through one object, after `i` and `j` steps; `b` is the deeper start. */
  ghost predicate Meet(c: Cluster, a: Object, b: Object, i: nat, j: nat) {
    i <= j < MAX_CHAIN_DEPTH && Ancestor(c, a, i) != [] && Ancestor(c, a, i) == Ancestor(c, b, j)
  }

  lemma {:induction false} MeetAbove(c: Cluster, a: Object, b: Object, i: nat, j: nat, n: nat)
    requires Meet(c, a, b, i, j)
    ensures Ancestor(c, a, i + n) == Ancestor(c, b, j + n)
  {
    AncestorOfAncestor(c, a, i, n);
    AncestorOfAncestor(c, b, j, n);
  }

  /** Where both walks are above the meeting point they have the same roots and failing lookups. */
  lemma {:induction false} MeetEnds(c: Cluster, a: Object, b: Object, i: nat, j: nat, n: nat)
    requires Meet(c, a, b, i, j)
    ensures RootAt(c, a, i + n) <==> RootAt(c, b, j + n)
    ensures FailureAt(c, a, i + n) <==> FailureAt(c, b, j + n)
  {
    MeetAbove(c, a, b, i, j, n);
  }

  lemma {:induction false} NoEndBelow(c: Cluster, o: Object, m: nat, n: nat)
    requires Ancestor(c, o, n) != []
    ensures RootAt(c, o, m) || FailureAt(c, o, m) ==> n <= m
  {
    if RootAt(c, o, m) && m < n {
      NothingAboveRoot(c, o, m, n);
    }
    if FailureAt(c, o, m) && m < n {
      NothingAboveFailure(c, o, m, n);
    }
  }

  /** What the deeper start reaches within the bound, the other one reaches too. */
  lemma {:induction false} MeetReaches(c: Cluster, a: Object, b: Object, i: nat, j: nat)
    requires Meet(c, a, b, i, j)
    ensures ReachesRoot(c, b) ==> ReachesRoot(c, a)
    ensures ReachesFailure(c, b) ==> ReachesFailure(c, a)
  {
    if n: nat :| n < MAX_CHAIN_DEPTH && RootAt(c, b, n) {
      NoEndBelow(c, b, n, j);
      MeetEnds(c, a, b, i, j, n - j);
    }
    if n: nat :| n < MAX_CHAIN_DEPTH && FailureAt(c, b, n) {
      NoEndBelow(c, b, n, j);
      MeetEnds(c, a, b, i, j, n - j);
    }
  }

  /** The deeper walk is cut off on a cycle whose length divides the difference in depth; trivial at equal depths. */
  ghost predicate CutOnCycle(c: Cluster, b: Object, i: nat, j: nat)
    requires i <= j
  {
    Ancestor(c, b, LAST + (j - i)) == Ancestor(c, b, LAST)
  }

  /** A walk that has a root repeats nothing from below it. */
  lemma {:induction false} NoRepeatAcrossRoot(c: Cluster, o: Object, m: nat, top: nat, n: nat)
    requires RootAt(c, o, top) && m < top <= n
    ensures Ancestor(c, o, n) != Ancestor(c, o, m)
  {
    AncestorsBelow(c, o, m, top);
    if top < n {
      NothingAboveRoot(c, o, top, n);
    } else if RootAt(c, o, m) {
      NothingAboveRoot(c, o, m, top);
    }
  }

  /** If only the other start reaches a root, the deeper walk has it just past the bound. */
  lemma {:induction false} RootPastBound(c: Cluster, a: Object, b: Object, i: nat, j: nat) returns (top: nat)
    requires Meet(c, a, b, i, j) && ReachesRoot(c, a) && !ReachesRoot(c, b)
    ensures RootAt(c, b, top) && LAST < top <= LAST + (j - i)
  {
    var n: nat :| n < MAX_CHAIN_DEPTH && RootAt(c, a, n);
    NoEndBelow(c, a, n, i);
    var m: nat := n - i;
    MeetEnds(c, a, b, i, j, m);
    top := j + m;
  }

  /**
    Two walks that pass through one object end at the same entry if and only if the deeper
    one has a root within ten lookups, or both are cut off and the cut comes round again.
   */
  lemma {:induction false} LastEntriesAgreeIff(c: Cluster, a: Object, b: Object, chainA: seq<OwnerRef>,
                                               chainB: seq<OwnerRef>, i: nat, j: nat)
    requires IsWalk(c, a, chainA, false) && IsWalk(c, b, chainB, false) && Meet(c, a, b, i, j)
    ensures chainA != [] && chainB != []
    ensures chainA[|chainA| - 1] == chainB[|chainB| - 1] <==> ReachesRoot(c, b) || CutOnCycle(c, b, i, j)
  {
    MeetReaches(c, a, b, i, j);
    EndsAtRootIff(c, a, chainA, false);
    EndsAtRootIff(c, b, chainB, false);
    if ReachesRoot(c, b) {
      RootedEntriesAgree(c, a, b, chainA, chainB, i, j);
    } else if ReachesRoot(c, a) {
      CutOffAt(c, b, chainB);
      NoCycleBelowRoot(c, a, b, i, j);
    } else {
      CutEntriesAgree(c, a, b, chainA, chainB, i, j);
    }
  }

  lemma {:induction false} NoCycleBelowRoot(c: Cluster, a: Object, b: Object, i: nat, j: nat)
    requires Meet(c, a, b, i, j) && ReachesRoot(c, a) && !ReachesRoot(c, b)
    ensures !CutOnCycle(c, b, i, j)
  {
    var top := RootPastBound(c, a, b, i, j);
    NoRepeatAcrossRoot(c, b, LAST, top, LAST + (j - i));
  }

  lemma {:induction false} CutEntriesAgree(c: Cluster, a: Object, b: Object, chainA: seq<OwnerRef>,
                                           chainB: seq<OwnerRef>, i: nat, j: nat)
    requires IsWalk(c, a, chainA, false) && IsWalk(c, b, chainB, false) && Meet(c, a, b, i, j)
    requires !ReachesRoot(c, a) && !ReachesRoot(c, b)
    ensures |chainA| == |chainB| == MAX_CHAIN_DEPTH && (chainA[LAST] == chainB[LAST] <==> CutOnCycle(c, b, i, j))
  {
    CutOffAt(c, a, chainA);
    CutOffAt(c, b, chainB);
    MeetAbove(c, a, b, i, j, LAST - i);
  }

  lemma {:induction false} RootedEntriesAgree(c: Cluster, a: Object, b: Object, chainA: seq<OwnerRef>,
                                              chainB: seq<OwnerRef>, i: nat, j: nat)
    requires IsWalk(c, a, chainA, false) && IsWalk(c, b, chainB, false) && Meet(c, a, b, i, j)
    requires EndsAtRoot(c, chainA, false) && EndsAtRoot(c, chainB, false)
    ensures chainA[|chainA| - 1] == chainB[|chainB| - 1]
  {
    StaysBelowEnd(c, a, chainA, i);
    StaysBelowEnd(c, b, chainB, j);
    WalksAreConfluent(c, a, b, chainA, chainB, false, false, i, j);
  }

  lemma {:induction false} StaysBelowEnd(c: Cluster, start: Object, chain: seq<OwnerRef>, i: nat)
    requires IsWalk(c, start, chain, false) && EndsAtRoot(c, chain, false) && Ancestor(c, start, i) != []
    ensures i < |chain|
  {
    if i >= |chain| {
      assert RootAt(c, start, |chain| - 1);
      NothingAboveRoot(c, start, |chain| - 1, i);
    }
  }

  function Involved(e: NormalizedEvent): Object {
    Object(e.objectKind, e.objectName)
  }

  /** `stored` is `raw` with the owner chain resolved against `c`, or without one when resolution failed. */
  ghost predicate IsEnriched(c: Cluster, raw: NormalizedEvent, stored: NormalizedEvent) {
    exists chain, failed ::
      && IsWalk(c, Involved(raw), chain, failed)
      && stored == if failed then raw else raw.(ownerChain := chain)
  }

  /** What the group of a walk ending at `o` is called. */
  function Identity(c: Cluster, o: Object): GroupId {
    match GetOwnerRefs(c, o)
    case Found(_, uid) => LabelOf(o.kind, o.name, uid)
    case Failed => LabelOf(o.kind, o.name, "")
  }

  /** No two objects on the two walks go by one identity, be it a UID or Kind/Name. */
  ghost predicate Unambiguous(c: Cluster, a: Object, b: Object) {
    forall m, n :: 0 <= m < MAX_CHAIN_DEPTH && 0 <= n < MAX_CHAIN_DEPTH
      && Ancestor(c, a, m) != [] && Ancestor(c, b, n) != []
      && Identity(c, Ancestor(c, a, m)[0]) == Identity(c, Ancestor(c, b, n)[0])
      ==> Ancestor(c, a, m) == Ancestor(c, b, n)
  }

  lemma {:induction false} EnrichedGroup(c: Cluster, raw: NormalizedEvent, stored: NormalizedEvent)
    returns (chain: seq<OwnerRef>)
    requires IsEnriched(c, raw, stored)
    ensures ReachesFailure(c, Involved(raw)) ==> stored == raw
    ensures !ReachesFailure(c, Involved(raw)) ==>
              && IsWalk(c, Involved(raw), chain, false) && chain != []
              && GroupIdFor(stored) == Identity(c, ObjectOf(chain[|chain| - 1]))
  {
    var failed;
    chain, failed :| IsWalk(c, Involved(raw), chain, failed)
      && stored == if failed then raw else raw.(ownerChain := chain);
    FailsIff(c, Involved(raw), chain, failed);
  }

  /**
    Events of two objects whose walks pass through one object, `e` starting deeper. When no
    lookup fails they are in one group if and only if the deeper walk has a root within ten
    lookups or is cut off on a fitting cycle. A failed walk leaves the event in the group of
    its own object.
   */
  lemma {:induction false} GroupsAgreeIff(c: Cluster, d: NormalizedEvent, e: NormalizedEvent, d': NormalizedEvent,
                                          e': NormalizedEvent, i: nat, j: nat)
    requires Meet(c, Involved(d), Involved(e), i, j) && Unambiguous(c, Involved(d), Involved(e))
    requires IsEnriched(c, d, d') && IsEnriched(c, e, e')
    ensures ReachesFailure(c, Involved(e)) ==> ReachesFailure(c, Involved(d))
    ensures !ReachesFailure(c, Involved(d)) ==>
              (GroupIdFor(d') == GroupIdFor(e') <==> ReachesRoot(c, Involved(e)) || CutOnCycle(c, Involved(e), i, j))
    ensures ReachesFailure(c, Involved(e)) ==>
              (GroupIdFor(d') == GroupIdFor(e') <==> GroupIdFor(d) == GroupIdFor(e))
    ensures ReachesFailure(c, Involved(d)) && !ReachesFailure(c, Involved(e)) ==>
              && Ancestor(c, Involved(e), LAST) != []
              && (GroupIdFor(d') == GroupIdFor(e') <==> GroupIdFor(d) == Identity(c, Ancestor(c, Involved(e), LAST)[0]))
  {
    var a, b := Involved(d), Involved(e);
    MeetReaches(c, a, b, i, j);
    var chainD := EnrichedGroup(c, d, d');
    var chainE := EnrichedGroup(c, e, e');
    if !ReachesFailure(c, a) {
      LastEntriesAgreeIff(c, a, b, chainD, chainE, i, j);
      SameIdentity(c, a, b, chainD, chainE);
    } else if !ReachesFailure(c, b) {
      NoRootAboveFailure(c, a);
      CutOffAt(c, b, chainE);
    }
  }

  lemma {:induction false} SameIdentity(c: Cluster, a: Object, b: Object, chainA: seq<OwnerRef>, chainB: seq<OwnerRef>)
    requires IsWalk(c, a, chainA, false) && IsWalk(c, b, chainB, false) && Unambiguous(c, a, b)
    requires chainA != [] && chainB != []
    ensures var lastA, lastB := chainA[|chainA| - 1], chainB[|chainB| - 1];
            Identity(c, ObjectOf(lastA)) == Identity(c, ObjectOf(lastB)) <==> lastA == lastB
  {
    assert Ancestor(c, a, |chainA| - 1) == [ObjectOf(chainA[|chainA| - 1])];
    assert Ancestor(c, b, |chainB| - 1) == [ObjectOf(chainB[|chainB| - 1])];
  }

  lemma {:induction false} NoRootAboveFailure(c: Cluster, o: Object)
    requires ReachesFailure(c, o)
    ensures !ReachesRoot(c, o)
  {
    var m: nat :| m < MAX_CHAIN_DEPTH && FailureAt(c, o, m);
    if n: nat :| n < MAX_CHAIN_DEPTH && RootAt(c, o, n) {
      if m < n {
        NothingAboveFailure(c, o, m, n);
      } else if n < m {
        NothingAboveRoot(c, o, n, m);
      }
    }
  }

  /** At equal depths below a common owner the bound does not matter: only failing lookups can part two events. */
  lemma {:induction false} EqualDepthSharesGroup(c: Cluster, d: NormalizedEvent, e: NormalizedEvent,
                                                 d': NormalizedEvent, e': NormalizedEvent, i: nat)
    requires Meet(c, Involved(d), Involved(e), i, i) && IsEnriched(c, d, d') && IsEnriched(c, e, e')
    ensures ReachesFailure(c, Involved(d)) <==> ReachesFailure(c, Involved(e))
    ensures !ReachesFailure(c, Involved(d)) ==> GroupIdFor(d') == GroupIdFor(e')
  {
    var a, b := Involved(d), Involved(e);
    MeetReaches(c, a, b, i, i);
    MeetReaches(c, b, a, i, i);
    var chainD := EnrichedGroup(c, d, d');
    var chainE := EnrichedGroup(c, e, e');
    if !ReachesFailure(c, a) {
      LastEntriesAgreeIff(c, a, b, chainD, chainE, i, i);
    }
  }

  /**
    An ownerless object's event is in one group whether or not enrichment failed if and only if
    it names the UID that is fetched, or the one is missing and the other spells Kind/Name.
   */
  lemma {:induction false} EnrichmentKeepsRootGroup(c: Cluster, e: NormalizedEvent, chain: seq<OwnerRef>, failed: bool)
    requires IsRoot(c, Involved(e)) && IsWalk(c, Involved(e), chain, failed)
    ensures var uid, name := GetOwnerRefs(c, Involved(e)).uid, e.objectKind + "/" + e.objectName;
            GroupIdFor(e.(ownerChain := chain)) == GroupIdFor(e.(ownerChain := [])) <==>
            e.objectUid == uid || (e.objectUid == "" && uid == name) || (e.objectUid == name && uid == "")
  {
    StopsAtRoot(c, Involved(e), chain, failed, 0);
  }

  // ---- the depth bound is felt ----

  lemma {:induction false} CycleRepeats(c: Cluster, o: Object, p: nat, n: nat)
    requires p > 0 && Ancestor(c, o, p) == [o]
    ensures Ancestor(c, o, n) != []
  {
    if n <= p {
      AncestorsBelow(c, o, n, p);
    } else {
      CycleRepeats(c, o, p, n - p);
      AncestorOfAncestor(c, o, p, n - p);
    }
  }

  /** On a cycle of owners the walk stops, without error, after exactly ten entries. */
  lemma {:induction false} CycleIsCutOff(c: Cluster, start: Object, p: nat, chain: seq<OwnerRef>, failed: bool)
    requires p > 0 && Ancestor(c, start, p) == [start] && IsWalk(c, start, chain, failed)
    ensures !failed && |chain| == MAX_CHAIN_DEPTH
  {
    CycleRepeats(c, start, p, |chain| + 1);
    CycleRepeats(c, start, p, |chain|);
  }

  /** A line of owners of any length: each pod's owner has a name one shorter, and no pod has an empty name. */
  function Line(): Cluster {
    (o: Object) =>
      if o.name == "" then Failed
      else Found(if |o.name| == 1 then [] else [OwnerReference(o.kind, o.name[1..], Absent)], "uid" + o.name)
  }

  lemma LineLookup(name: string)
    requires name != ""
    ensures var owners := if |name| == 1 then [] else [OwnerReference("Pod", name[1..], Absent)];
            GetOwnerRefs(Line(), Object("Pod", name)) == Found(owners, "uid" + name)
  {
  }

  lemma {:induction false} LineAncestor(name: string, n: nat)
    requires n < |name|
    ensures Ancestor(Line(), Object("Pod", name), n) == [Object("Pod", name[n..])]
  {
    if n == 0 {
    } else {
      LineAncestor(name, n - 1);
      LineLookup(name[n - 1..]);
      assert name[n - 1..][1..] == name[n..];
    }
  }

  /** A root of the line is at the end of the name, and nothing before it fails. */
  lemma {:induction false} LineEnds(name: string, n: nat)
    requires n < |name|
    ensures RootAt(Line(), Object("Pod", name), n) <==> n == |name| - 1
    ensures !FailureAt(Line(), Object("Pod", name), n)
  {
    LineAncestor(name, n);
    LineLookup(name[n..]);
  }

  lemma {:induction false} LineReaches(name: string)
    requires |name| >= MAX_CHAIN_DEPTH
    ensures !ReachesFailure(Line(), Object("Pod", name))
    ensures ReachesRoot(Line(), Object("Pod", name)) <==> |name| == MAX_CHAIN_DEPTH
  {
    forall n: nat | n < MAX_CHAIN_DEPTH
      ensures RootAt(Line(), Object("Pod", name), n) <==> n == |name| - 1
      ensures !FailureAt(Line(), Object("Pod", name), n)
    {
      LineEnds(name, n);
    }
    LineEnds(name, LAST);
  }

  /** The walk up a line of ten owners or more ends at the tenth. */
  lemma {:induction false} LineGroup(e: NormalizedEvent, e': NormalizedEvent)
    requires e.objectKind == "Pod" && |e.objectName| >= MAX_CHAIN_DEPTH && IsEnriched(Line(), e, e')
    ensures GroupIdFor(e') == "uid" + e.objectName[LAST..]
  {
    var c, name := Line(), e.objectName;
    LineReaches(name);
    var chain := EnrichedGroup(c, e, e');
    if |chain| < MAX_CHAIN_DEPTH {
      LineEnds(name, |chain| - 1);
    }
    LineAncestor(name, LAST);
    LineLookup(name[LAST..]);
  }

  /**
    A shared owner is not enough: of a pod eleven levels deep and its own owner, the first
    walk is cut off just below the root that the second one reaches.
   */
  lemma {:induction false} DepthBoundSplits(d: NormalizedEvent, e: NormalizedEvent, d': NormalizedEvent,
                                            e': NormalizedEvent)
    requires d.objectKind == e.objectKind == "Pod" && |e.objectName| == 11 && d.objectName == e.objectName[1..]
    requires IsEnriched(Line(), d, d') && IsEnriched(Line(), e, e')
    ensures Meet(Line(), Involved(d), Involved(e), 0, 1)
    ensures ReachesRoot(Line(), Involved(d)) && !ReachesRoot(Line(), Involved(e))
    ensures GroupIdFor(d') != GroupIdFor(e')
  {
    LineAncestor(e.objectName, 1);
    LineReaches(d.objectName);
    LineReaches(e.objectName);
    LineGroup(d, d');
    LineGroup(e, e');
    assert |d.objectName[LAST..]| == 1 && |e.objectName[LAST..]| == 2;
  }
}
