/**
  What a group id says about the object it stands for. Groups are labelled by the UID of the
  topmost owner, or by Kind/Name where it has none, without its namespace.
 */
module GroupRoots {
  import opened Events
  import opened Correlation
  import opened OwnerChains

  /** The object that decides an event's group, as recorded with the event. */
  datatype Place = Place(namespace: string, kind: string, name: string, uid: string)

  function PlaceOf(e: NormalizedEvent): (p: Place)
    ensures GroupIdFor(e) == LabelOf(p.kind, p.name, p.uid)
  {
    if |e.ownerChain| > 0 then
      var root := e.ownerChain[|e.ownerChain| - 1];
      Place(e.namespace, root.kind, root.name, root.uid)
    else Place(e.namespace, e.objectKind, e.objectName, e.objectUid)
  }

  predicate SameObject(p: Place, q: Place) {
    p.namespace == q.namespace && p.kind == q.kind && p.name == q.name
  }

  /** Kinds are identifiers and UIDs are UUIDs: neither holds a slash. */
  predicate IsNamed(kind: string, uid: string) {
    '/' !in kind && '/' !in uid
  }

  lemma SlashSplits(kind: string, name: string, kind': string, name': string)
    requires '/' !in kind && '/' !in kind' && kind + "/" + name == kind' + "/" + name'
    ensures kind == kind' && name == name'
  {
    var s := kind + "/" + name;
    assert s[|kind|] == '/' && s[|kind'|] == '/';
    assert |kind| == |kind'|;
    assert kind == s[..|kind|] && kind' == s[..|kind'|];
    assert name == s[|kind| + 1..] && name' == s[|kind'| + 1..];
  }

  /** Equal labels are equal UIDs, or equal kinds and names of two objects without one. */
  lemma LabelSplits(kind: string, name: string, uid: string, kind': string, name': string, uid': string)
    requires IsNamed(kind, uid) && IsNamed(kind', uid') && LabelOf(kind, name, uid) == LabelOf(kind', name', uid')
    ensures uid == uid' && (uid == "" ==> kind == kind' && name == name')
  {
    var slash, slash' := kind + "/" + name, kind' + "/" + name';
    assert slash[|kind|] == '/' && slash'[|kind'|] == '/';
    if uid == "" && uid' == "" {
      SlashSplits(kind, name, kind', name');
    }
  }

  /** One group means one deciding object if and only if that object has a UID, or the namespaces agree. */
  lemma GroupMeansRootIff(d: NormalizedEvent, e: NormalizedEvent)
    requires GroupIdFor(d) == GroupIdFor(e)
    requires IsNamed(PlaceOf(d).kind, PlaceOf(d).uid) && IsNamed(PlaceOf(e).kind, PlaceOf(e).uid)
    requires PlaceOf(d).uid != "" && PlaceOf(d).uid == PlaceOf(e).uid ==> SameObject(PlaceOf(d), PlaceOf(e))
    ensures SameObject(PlaceOf(d), PlaceOf(e)) <==> PlaceOf(d).uid != "" || d.namespace == e.namespace
  {
    var p, q := PlaceOf(d), PlaceOf(e);
    LabelSplits(p.kind, p.name, p.uid, q.kind, q.name, q.uid);
  }

  /** Every object that is fetched has a UID. */
  ghost predicate HasUids(c: Cluster) {
    forall o: Object :: o.kind in FETCHED_KINDS && c(o).Found? ==> c(o).uid != ""
  }

  /** After a walk that did not fail, the deciding object lacks a UID exactly when its kind is not fetched. */
  lemma UidIffFetched(c: Cluster, e: NormalizedEvent, e': NormalizedEvent)
    requires HasUids(c) && IsEnriched(c, e, e') && !ReachesFailure(c, Involved(e))
    ensures PlaceOf(e').uid != "" <==> PlaceOf(e').kind in FETCHED_KINDS
  {
    var chain, failed :|
      IsWalk(c, Involved(e), chain, failed) && e' == if failed then e else e.(ownerChain := chain);
    FailsIff(c, Involved(e), chain, failed);
    assert GetOwnerRefs(c, ObjectOf(chain[|chain| - 1])).Found?;
  }

  /** So objects of a kind that is not fetched share a group across namespaces when they share a name. */
  lemma UnfetchedKindsMerge(c: Cluster, c': Cluster, d: NormalizedEvent, e: NormalizedEvent, d': NormalizedEvent,
                            e': NormalizedEvent)
    requires IsEnriched(c, d, d') && IsEnriched(c', e, e') && Involved(d) == Involved(e)
    requires d.objectKind !in FETCHED_KINDS
    ensures GroupIdFor(d') == GroupIdFor(e')
    ensures d.namespace != e.namespace ==> !SameObject(PlaceOf(d'), PlaceOf(e'))
  {
    UnfetchedGroup(c, d, d');
    UnfetchedGroup(c', e, e');
  }

  lemma UnfetchedGroup(c: Cluster, e: NormalizedEvent, e': NormalizedEvent)
    requires IsEnriched(c, e, e') && e.objectKind !in FETCHED_KINDS
    ensures GroupIdFor(e') == LabelOf(e.objectKind, e.objectName, "") && e'.namespace == e.namespace
  {
    var chain, failed :|
      IsWalk(c, Involved(e), chain, failed) && e' == if failed then e else e.(ownerChain := chain);
    assert RootAt(c, Involved(e), 0);
    StopsAtRoot(c, Involved(e), chain, failed, 0);
  }

  lemma RolloutsAreNotFetched()
    ensures "Rollout" !in FETCHED_KINDS
  {
  }

  /** Two Rollouts named web, in two namespaces and with two UIDs: one group. */
  lemma RolloutsMerge(c: Cluster, c': Cluster) returns (d: NormalizedEvent, e: NormalizedEvent)
    ensures d.namespace != e.namespace && d.objectUid != e.objectUid
    ensures forall d', e' :: IsEnriched(c, d, d') && IsEnriched(c', e, e') ==>
              GroupIdFor(d') == GroupIdFor(e') && !SameObject(PlaceOf(d'), PlaceOf(e'))
  {
    d := NormalizedEvent("", "blue", "Rollout", "web", "1", [], "BackOff", "", 1, ZERO_TIME, ZERO_TIME);
    e := d.(namespace := "green", objectUid := "2");
    RolloutsAreNotFetched();
    forall d', e' | IsEnriched(c, d, d') && IsEnriched(c', e, e')
      ensures GroupIdFor(d') == GroupIdFor(e') && !SameObject(PlaceOf(d'), PlaceOf(e'))
    {
      UnfetchedKindsMerge(c, c', d, e, d', e');
    }
  }

  // ---- within one namespace ----

  function UidOf(c: Cluster, o: Object): string {
    match GetOwnerRefs(c, o)
    case Found(_, uid) => uid
    case Failed => ""
  }

  ghost predicate UniqueUids(c: Cluster) {
    forall o, p :: UidOf(c, o) != "" && UidOf(c, o) == UidOf(c, p) ==> o == p
  }

  /** Every object on the walk has a slashless kind and UID. */
  ghost predicate WalkIsNamed(c: Cluster, o: Object) {
    forall n :: 0 <= n < MAX_CHAIN_DEPTH && Ancestor(c, o, n) != [] ==>
      IsNamed(Ancestor(c, o, n)[0].kind, UidOf(c, Ancestor(c, o, n)[0]))
  }

  lemma IdentityIsUnique(c: Cluster, o: Object, p: Object)
    requires UniqueUids(c) && IsNamed(o.kind, UidOf(c, o)) && IsNamed(p.kind, UidOf(c, p))
    requires Identity(c, o) == Identity(c, p)
    ensures o == p
  {
    LabelSplits(o.kind, o.name, UidOf(c, o), p.kind, p.name, UidOf(c, p));
  }

  /** Unique UIDs and slashless kinds are all that `Unambiguous` asks for. */
  lemma NamesAreUnambiguous(c: Cluster, a: Object, b: Object)
    requires UniqueUids(c) && WalkIsNamed(c, a) && WalkIsNamed(c, b)
    ensures Unambiguous(c, a, b)
  {
    forall m, n | 0 <= m < MAX_CHAIN_DEPTH && 0 <= n < MAX_CHAIN_DEPTH
      && Ancestor(c, a, m) != [] && Ancestor(c, b, n) != []
      && Identity(c, Ancestor(c, a, m)[0]) == Identity(c, Ancestor(c, b, n)[0])
      ensures Ancestor(c, a, m) == Ancestor(c, b, n)
    {
      IdentityIsUnique(c, Ancestor(c, a, m)[0], Ancestor(c, b, n)[0]);
    }
  }
}
