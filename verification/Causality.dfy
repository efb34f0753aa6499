/** Tables of causal edges between event reasons, their inversion, and the table the system ships. */
module Causality {

  /** An edge table, with a level for every reason. */
  datatype EdgeTable = EdgeTable(edges: map<string, seq<string>>, level: string -> nat, height: nat) {
    predicate Edge(cause: string, effect: string) {
      cause in edges && effect in edges[cause]
    }

    /** Levels climb along edges and end at `height`; so the graph is acyclic, with no longer path. */
    ghost predicate Climbs() {
      && !(exists effect :: Edge("", effect))
      && forall cause, effect :: Edge(cause, effect) ==> level(cause) < level(effect) <= height
    }
  }

  /** Each reason with the reasons it commonly causes. */
  const CAUSAL_EDGES: map<string, seq<string>> := map[
    "FailedScheduling" := ["Pending"],
    "ErrImagePull" := ["ImagePullBackOff", "BackOff"],
    "ImagePullBackOff" := ["BackOff"],
    "FailedMount" := ["BackOff", "Unhealthy"],
    "FailedAttachVolume" := ["FailedMount"],
    "VolumeResizeFailed" := ["FailedMount"],
    "Unhealthy" := ["Killing", "BackOff"],
    "Killing" := ["BackOff"],
    "Failed" := ["BackOff"],
    "OOMKilling" := ["BackOff"],
    "BackOff" := ["CrashLoopBackOff"],
    "CrashLoopBackOff" := ["FailedCreate"],
    "FailedCreate" := ["ScalingReplicaSet"],
    "ScalingReplicaSet" := [],
    "NetworkNotReady" := ["FailedScheduling"],
    "NodeNotReady" := ["FailedScheduling"]
  ]

  /** The same edges as pairs, each cause with one effect. */
  lemma KnownEdges(cause: string, effect: string)
    ensures KNOWN_CAUSES.Edge(cause, effect) <==> (cause, effect) in {
              ("FailedScheduling", "Pending"),
              ("ErrImagePull", "ImagePullBackOff"), ("ErrImagePull", "BackOff"), ("ImagePullBackOff", "BackOff"),
              ("FailedMount", "BackOff"), ("FailedMount", "Unhealthy"),
              ("FailedAttachVolume", "FailedMount"), ("VolumeResizeFailed", "FailedMount"),
              ("Unhealthy", "Killing"), ("Unhealthy", "BackOff"), ("Killing", "BackOff"), ("Failed", "BackOff"),
              ("OOMKilling", "BackOff"),
              ("BackOff", "CrashLoopBackOff"), ("CrashLoopBackOff", "FailedCreate"),
              ("FailedCreate", "ScalingReplicaSet"),
              ("NetworkNotReady", "FailedScheduling"), ("NodeNotReady", "FailedScheduling")}
  {
  }

  /** A level for every reason, strictly increasing along edges. */
  function Rank(reason: string): nat {
    if reason == "ScalingReplicaSet" then 7
    else if reason == "FailedCreate" then 6
    else if reason == "CrashLoopBackOff" then 5
    else if reason == "BackOff" then 4
    else if reason == "Killing" then 3
    else if reason == "Unhealthy" || reason == "Pending" then 2
    else if reason == "FailedMount" || reason == "FailedScheduling" || reason == "ImagePullBackOff" then 1
    else 0
  }

  const KNOWN_CAUSES: EdgeTable := EdgeTable(CAUSAL_EDGES, Rank, 7)

  lemma KnownEdgeClimbs(cause: string, effect: string)
    requires KNOWN_CAUSES.Edge(cause, effect)
    ensures cause != "" && Rank(cause) < Rank(effect) <= 7
  {
  }

  /** The shipped edge graph is acyclic. */
  lemma KnownCausesClimb()
    ensures KNOWN_CAUSES.Climbs()
  {
    forall cause, effect | KNOWN_CAUSES.Edge(cause, effect)
      ensures cause != "" && Rank(cause) < Rank(effect) <= 7
    {
      KnownEdgeClimbs(cause, effect);
    }
  }

  ghost predicate IsPath(k: EdgeTable, p: seq<string>) {
    forall i :: 0 <= i < |p| - 1 ==> k.Edge(p[i], p[i + 1])
  }

  lemma {:induction false} PathClimbs(k: EdgeTable, p: seq<string>)
    requires k.Climbs() && |p| > 0 && IsPath(k, p)
    ensures k.level(p[0]) + |p| - 1 <= k.level(p[|p|-1])
    decreases |p|
  {
    if |p| <= 1 {
    } else {
      var q := p[..|p|-1];
      assert forall i :: 0 <= i < |q| ==> q[i] == p[i];
      PathClimbs(k, q);
      assert k.Edge(p[|p|-2], p[|p|-1]);
    }
  }

  lemma SevenEdgePath() returns (p: seq<string>)
    ensures |p| == 8 && IsPath(KNOWN_CAUSES, p)
  {
    p := ["FailedAttachVolume", "FailedMount", "Unhealthy", "Killing", "BackOff",
          "CrashLoopBackOff", "FailedCreate", "ScalingReplicaSet"];
    assert KNOWN_CAUSES.Edge("FailedAttachVolume", "FailedMount");
    assert KNOWN_CAUSES.Edge("FailedMount", "Unhealthy");
    assert KNOWN_CAUSES.Edge("Unhealthy", "Killing");
    assert KNOWN_CAUSES.Edge("Killing", "BackOff");
    assert KNOWN_CAUSES.Edge("BackOff", "CrashLoopBackOff");
    assert KNOWN_CAUSES.Edge("CrashLoopBackOff", "FailedCreate");
    assert KNOWN_CAUSES.Edge("FailedCreate", "ScalingReplicaSet");
  }

  /** Seven is the length of the longest path: no path is longer, and one is that long. */
  lemma LongestPath()
    ensures forall p :: |p| > 0 && IsPath(KNOWN_CAUSES, p) ==> |p| - 1 <= 7
    ensures exists p :: |p| == 8 && IsPath(KNOWN_CAUSES, p)
  {
    KnownCausesClimb();
    forall p | |p| > 0 && IsPath(KNOWN_CAUSES, p)
      ensures |p| - 1 <= 7
    {
      PathClimbs(KNOWN_CAUSES, p);
    }
    var p := SevenEdgePath();
  }

  // ---- the inverse index ----

  type CausedBy = map<string, seq<string>>

  function Preds(idx: CausedBy, reason: string): seq<string> {
    if reason in idx then idx[reason] else []
  }

  /** `idx` lists, for each effect, exactly its causes. */
  ghost predicate IsInverse(idx: CausedBy, edges: map<string, seq<string>>) {
    forall cause, effect :: cause in Preds(idx, effect) <==> cause in edges && effect in edges[cause]
  }

  /** Inverts an edge table, walking its keys in whatever order. */
  method BuildCausedByIndex(edges: map<string, seq<string>>) returns (idx: CausedBy)
    ensures IsInverse(idx, edges)
  {
    idx := map[];
    var todo := edges.Keys;
    ghost var done: set<string> := {};
    while todo != {}
      invariant done + todo == edges.Keys
      invariant forall c, e :: c in Preds(idx, e) <==> c in done && e in edges[c]
      decreases todo
    {
      var cause :| cause in todo;
      idx := AddCause(idx, cause, edges[cause]);
      todo := todo - {cause};
      done := done + {cause};
    }
    assert forall c :: c in edges <==> c in done;
  }

  method AddCause(before: CausedBy, cause: string, effects: seq<string>) returns (idx: CausedBy)
    ensures forall c, e :: c in Preds(idx, e) <==> c in Preds(before, e) || (c == cause && e in effects)
  {
    idx := before;
    for i := 0 to |effects|
      invariant forall c, e :: c in Preds(idx, e) <==> c in Preds(before, e) || (c == cause && e in effects[..i])
    {
      var effect := effects[i];
      ghost var was := idx;
      idx := idx[effect := Preds(idx, effect) + [cause]];
      assert forall c, e :: c in Preds(idx, e) <==> c in Preds(was, e) || (c == cause && e == effect);
      assert effects[..i + 1] == effects[..i] + [effect];
    }
    assert effects[..|effects|] == effects;
  }

  /** The first listed predecessor that has been seen, or "". */
  method KnownCause(idx: CausedBy, reason: string, seen: set<string>) returns (cause: string)
    ensures cause == FirstSeen(Preds(idx, reason), seen)
    ensures IsFirstSeen(Preds(idx, reason), seen, cause)
  {
    var preds := Preds(idx, reason);
    FirstSeenIsFirst(preds, seen);
    for i := 0 to |preds|
      invariant FirstSeen(preds, seen) == FirstSeen(preds[i..], seen)
    {
      if preds[i] in seen {
        return preds[i];
      }
      assert preds[i..][1..] == preds[i + 1..];
    }
    return "";
  }

  function FirstSeen(preds: seq<string>, seen: set<string>): string {
    if preds == [] then ""
    else if preds[0] in seen then preds[0]
    else FirstSeen(preds[1..], seen)
  }

  /** The first listed reason that has been seen, or "" when none has. */
  ghost predicate IsFirstSeen(preds: seq<string>, seen: set<string>, cause: string) {
    || (exists i :: 0 <= i < |preds| && preds[i] == cause && cause in seen
                    && forall j :: 0 <= j < i ==> preds[j] !in seen)
    || (cause == "" && forall j :: 0 <= j < |preds| ==> preds[j] !in seen)
  }

  lemma {:induction false} FirstSeenIsFirst(preds: seq<string>, seen: set<string>)
    ensures IsFirstSeen(preds, seen, FirstSeen(preds, seen))
  {
    if preds == [] {
    } else if preds[0] in seen {
      assert preds[0] == FirstSeen(preds, seen);
    } else {
      var tail, cause := preds[1..], FirstSeen(preds, seen);
      FirstSeenIsFirst(tail, seen);
      if i :| 0 <= i < |tail| && tail[i] == cause && cause in seen && forall j :: 0 <= j < i ==> tail[j] !in seen {
        assert preds[i + 1] == cause && forall j :: 0 < j < i + 1 ==> preds[j] == tail[j - 1];
      } else {
        assert forall j :: 0 < j < |preds| ==> preds[j] == tail[j - 1];
      }
    }
  }

  /** A cause is found exactly when some known cause has been seen, and it is one of those. */
  lemma FirstSeenIsCause(k: EdgeTable, idx: CausedBy, reason: string, seen: set<string>)
    requires IsInverse(idx, k.edges) && k.Climbs()
    ensures var c := FirstSeen(Preds(idx, reason), seen);
            && (c != "" ==> c in seen && k.Edge(c, reason))
            && (c == "" <==> forall p :: p in seen ==> !k.Edge(p, reason))
  {
    var preds := Preds(idx, reason);
    FirstSeenIsMember(preds, seen);
    assert forall p :: p in preds <==> k.Edge(p, reason);
  }

  lemma {:induction false} FirstSeenIsMember(preds: seq<string>, seen: set<string>)
    ensures var c := FirstSeen(preds, seen);
            || (c in preds && c in seen)
            || (c == "" && forall p :: p in preds ==> p !in seen)
  {
    if preds == [] {
    } else {
      FirstSeenIsMember(preds[1..], seen);
      assert preds == [preds[0]] + preds[1..];
    }
  }
}
