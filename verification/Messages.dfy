/** Normalisation of raw Kubernetes events. */
module Messages {
  import opened Events

  /** The code points Unicode calls white space. */
  predicate IsSpace(c: char) {
    || c in {'\t', '\n', '\U{0B}', '\U{0C}', '\r', ' ', '\U{85}', '\U{A0}', '\U{1680}'}
    || '\U{2000}' <= c <= '\U{200A}'
    || c in {'\U{2028}', '\U{2029}', '\U{202F}', '\U{205F}', '\U{3000}'}
  }

  function TrimLeft(s: string): string {
    if s != [] && IsSpace(s[0]) then TrimLeft(s[1..]) else s
  }

  function TrimRight(s: string): string {
    if s != [] && IsSpace(s[|s|-1]) then TrimRight(s[..|s|-1]) else s
  }

  function TrimSpace(s: string): string {
    TrimRight(TrimLeft(s))
  }

  /** Length of the leading run of non-space characters. */
  function WordLength(s: string): (n: nat)
    ensures n <= |s|
    ensures forall i :: 0 <= i < n ==> !IsSpace(s[i])
    ensures n < |s| ==> IsSpace(s[n])
  {
    if s == [] || IsSpace(s[0]) then 0 else 1 + WordLength(s[1..])
  }

  /** The maximal runs of non-space characters, in order. */
  function Fields(s: string): seq<string>
    decreases |s|
  {
    if s == [] then []
    else if IsSpace(s[0]) then Fields(s[1..])
    else [s[..WordLength(s)]] + Fields(s[WordLength(s)..])
  }

  function Join(words: seq<string>): string {
    if words == [] then ""
    else if |words| == 1 then words[0]
    else words[0] + " " + Join(words[1..])
  }

  function NormalizeMessage(msg: string): string {
    Join(Fields(TrimSpace(msg)))
  }

  predicate IsWord(w: string) {
    w != "" && forall i :: 0 <= i < |w| ==> !IsSpace(w[i])
  }

  ghost predicate AreWords(words: seq<string>) {
    forall i :: 0 <= i < |words| ==> IsWord(words[i])
  }

  lemma {:induction false} FieldsAreWords(s: string)
    ensures AreWords(Fields(s))
    decreases |s|
  {
    if s == [] {
    } else {
      if IsSpace(s[0]) {
        FieldsAreWords(s[1..]);
      } else {
        FieldsAreWords(s[WordLength(s)..]);
      }
    }
  }

  lemma {:induction false} WordLengthIs(w: string, rest: string)
    requires forall i :: 0 <= i < |w| ==> !IsSpace(w[i])
    requires rest == "" || IsSpace(rest[0])
    ensures WordLength(w + rest) == |w|
  {
    if w == "" {
      assert w + rest == rest;
    } else {
      assert (w + rest)[1..] == w[1..] + rest;
      WordLengthIs(w[1..], rest);
    }
  }

  lemma FieldsOfWord(w: string, rest: string)
    requires IsWord(w) && (rest == "" || IsSpace(rest[0]))
    ensures Fields(w + rest) == [w] + Fields(rest)
  {
    WordLengthIs(w, rest);
    assert (w + rest)[..|w|] == w && (w + rest)[|w|..] == rest;
  }

  /** Splitting what was joined gives the words back. */
  lemma {:induction false} FieldsOfJoin(words: seq<string>)
    requires AreWords(words)
    ensures Fields(Join(words)) == words
  {
    if |words| == 1 {
      FieldsOfWord(words[0], "");
      assert words[0] + "" == words[0];
    } else if |words| > 1 {
      var tail := Join(words[1..]);
      assert AreWords(words[1..]);
      FieldsOfJoin(words[1..]);
      assert Join(words) == words[0] + (" " + tail);
      FieldsOfWord(words[0], " " + tail);
      assert (" " + tail)[1..] == tail;
      assert words == [words[0]] + words[1..];
    }
  }

  lemma {:induction false} FieldsTrimLeft(s: string)
    ensures Fields(TrimLeft(s)) == Fields(s)
  {
    if s == [] || !IsSpace(s[0]) {
    } else {
      FieldsTrimLeft(s[1..]);
    }
  }

  /** A trailing space separates nothing. */
  lemma {:induction false} FieldsDropLast(p: string, c: char)
    requires IsSpace(c)
    ensures Fields(p + [c]) == Fields(p)
    decreases |p|
  {
    if p == [] {
      assert ([c])[1..] == [];
      assert p + [c] == [c];
    } else if IsSpace(p[0]) {
      assert (p + [c])[1..] == p[1..] + [c];
      FieldsDropLast(p[1..], c);
    } else {
      var n := WordLength(p);
      var w, rest := p[..n], p[n..];
      assert p == w + rest && p + [c] == w + (rest + [c]);
      FieldsDropLast(rest, c);
      FieldsOfWord(w, rest);
      FieldsOfWord(w, rest + [c]);
    }
  }

  lemma {:induction false} FieldsTrimRight(s: string)
    ensures Fields(TrimRight(s)) == Fields(s)
  {
    if s == [] || !IsSpace(s[|s|-1]) {
    } else {
      assert s == s[..|s|-1] + [s[|s|-1]];
      FieldsTrimRight(s[..|s|-1]);
      FieldsDropLast(s[..|s|-1], s[|s|-1]);
    }
  }

  /** Normalising keeps exactly the words, in order. */
  lemma NormalizeKeepsWords(msg: string)
    ensures Fields(NormalizeMessage(msg)) == Fields(msg)
  {
    FieldsTrimLeft(msg);
    FieldsTrimRight(TrimLeft(msg));
    FieldsAreWords(TrimSpace(msg));
    FieldsOfJoin(Fields(TrimSpace(msg)));
  }

  /** Two messages normalise alike exactly when they have the same words. */
  lemma NormalizeIsCanonical(a: string, b: string)
    ensures NormalizeMessage(a) == NormalizeMessage(b) <==> Fields(a) == Fields(b)
  {
    NormalizeKeepsWords(a);
    NormalizeKeepsWords(b);
    FieldsTrimLeft(a);
    FieldsTrimRight(TrimLeft(a));
    FieldsTrimLeft(b);
    FieldsTrimRight(TrimLeft(b));
  }

  lemma NormalizeIsIdempotent(msg: string)
    ensures NormalizeMessage(NormalizeMessage(msg)) == NormalizeMessage(msg)
  {
    NormalizeKeepsWords(msg);
    NormalizeIsCanonical(NormalizeMessage(msg), msg);
  }

  /** White space by its code points. */
  ghost predicate IsWhiteSpace(c: char) {
    var n := c as int;
    || 9 <= n <= 13 || n == 32 || n == 0x85 || n == 0xA0 || n == 0x1680
    || 0x2000 <= n <= 0x200A || n == 0x2028 || n == 0x2029 || n == 0x202F || n == 0x205F || n == 0x3000
  }

  lemma SpaceIsWhiteSpace(c: char)
    ensures IsSpace(c) <==> IsWhiteSpace(c)
  {
  }

  /** All white space is single blanks between words. */
  ghost predicate IsSingleSpaced(s: string) {
    forall i :: 0 <= i < |s| && IsWhiteSpace(s[i]) ==>
      s[i] == ' ' && 0 < i < |s| - 1 && !IsWhiteSpace(s[i - 1]) && !IsWhiteSpace(s[i + 1])
  }

  lemma {:induction false} JoinIsSingleSpaced(words: seq<string>)
    requires AreWords(words)
    ensures IsSingleSpaced(Join(words))
    ensures words != [] ==> Join(words) != "" && !IsWhiteSpace(Join(words)[0])
  {
    forall c
      ensures IsSpace(c) <==> IsWhiteSpace(c)
    {
      SpaceIsWhiteSpace(c);
    }
    if |words| == 1 {
      assert IsWord(words[0]);
    } else if |words| > 1 {
      assert AreWords(words[1..]);
      JoinIsSingleSpaced(words[1..]);
      assert IsWord(words[0]);
      PrependWord(words[0], Join(words[1..]));
    }
  }

  lemma PrependWord(w: string, tail: string)
    requires w != "" && (forall i :: 0 <= i < |w| ==> !IsWhiteSpace(w[i]))
    requires IsSingleSpaced(tail) && tail != "" && !IsWhiteSpace(tail[0])
    ensures IsSingleSpaced(w + " " + tail) && !IsWhiteSpace((w + " " + tail)[0])
  {
    var s := w + " " + tail;
    forall i | 0 <= i < |s| && IsWhiteSpace(s[i])
      ensures s[i] == ' ' && 0 < i < |s| - 1 && !IsWhiteSpace(s[i - 1]) && !IsWhiteSpace(s[i + 1])
    {
      if i > |w| {
        assert s[i] == tail[i - |w| - 1];
        assert s[i - 1] == tail[i - |w| - 2] && s[i + 1] == tail[i - |w|];
      }
    }
  }

  /** A normal form is trimmed, and its words are separated by one blank each. */
  lemma NormalizeIsSingleSpaced(msg: string)
    ensures IsSingleSpaced(NormalizeMessage(msg))
  {
    FieldsAreWords(TrimSpace(msg));
    JoinIsSingleSpaced(Fields(TrimSpace(msg)));
  }

  lemma FieldsSkipSpace(c: char, s: string)
    requires IsSpace(c)
    ensures Fields([c] + s) == Fields(s)
  {
    assert ([c] + s)[1..] == s;
  }

  /** Splitting around `c` gives the words of the two sides. */
  ghost predicate Separates(a: string, c: char, b: string) {
    Fields(a + [c] + b) == Fields(a) + Fields(b)
  }

  lemma Regroup(w: string, a: string, c: char, b: string)
    ensures w + a + [c] + b == w + (a + [c] + b)
  {
  }

  lemma SeparatesAfterSpace(x: char, a: string, c: char, b: string)
    requires IsSpace(x) && Separates(a, c, b)
    ensures Separates([x] + a, c, b)
  {
    FieldsSkipSpace(x, a);
    FieldsSkipSpace(x, a + [c] + b);
    Regroup([x], a, c, b);
  }

  lemma SeparatesAfterWord(w: string, a: string, c: char, b: string)
    requires IsWord(w) && (a == "" || IsSpace(a[0])) && IsSpace(c) && Separates(a, c, b)
    ensures Separates(w + a, c, b)
  {
    var tail := a + [c] + b;
    assert tail[0] == if a == "" then c else a[0];
    FieldsOfWord(w, a);
    FieldsOfWord(w, tail);
    Regroup(w, a, c, b);
  }

  lemma SeparatesFirst(c: char, b: string)
    requires IsSpace(c)
    ensures Separates("", c, b)
  {
    FieldsSkipSpace(c, b);
    assert "" + [c] + b == [c] + b;
  }

  /** White space separates words wherever it stands; with `FieldsOfWord` this determines the words of any text. */
  lemma {:induction false} FieldsAtSpace(a: string, c: char, b: string)
    requires IsWhiteSpace(c)
    ensures Separates(a, c, b)
    decreases |a|
  {
    SpaceIsWhiteSpace(c);
    if a == "" {
      SeparatesFirst(c, b);
    } else if IsSpace(a[0]) {
      FieldsAtSpace(a[1..], c, b);
      SeparatesAfterSpace(a[0], a[1..], c, b);
      assert a == [a[0]] + a[1..];
    } else {
      var n := WordLength(a);
      FieldsAtSpace(a[n..], c, b);
      SeparatesAfterWord(a[..n], a[n..], c, b);
      assert a == a[..n] + a[n..];
    }
  }

  // ---- whole events ----

  datatype RawEvent = RawEvent(
    namespace: string, objectKind: string, objectName: string, objectUid: string,
    reason: string, message: string, count: Int32,
    firstTimestamp: Time, lastTimestamp: Time, eventTime: Time)

  /** EventTime, when set, is the last-seen time and stands in for a missing first one; a zero count counts once. */
  function Normalize(clusterName: string, e: RawEvent): NormalizedEvent {
    NormalizedEvent(
      clusterName, e.namespace, e.objectKind, e.objectName, e.objectUid, [],
      e.reason, NormalizeMessage(e.message),
      if e.count == 0 then 1 else e.count,
      if e.eventTime != ZERO_TIME && e.firstTimestamp == ZERO_TIME then e.eventTime else e.firstTimestamp,
      if e.eventTime != ZERO_TIME then e.eventTime else e.lastTimestamp)
  }

  /** Field by field, `n` is the normal form of the raw event `e` of a cluster. */
  ghost predicate IsRecordOf(clusterName: string, e: RawEvent, n: NormalizedEvent) {
    && n.clusterName == clusterName && n.namespace == e.namespace
    && n.objectKind == e.objectKind && n.objectName == e.objectName && n.objectUid == e.objectUid
    && n.reason == e.reason && n.ownerChain == []
    && Fields(n.message) == Fields(e.message) && IsSingleSpaced(n.message)
    && (e.count == 0 ==> n.count == 1) && (e.count != 0 ==> n.count == e.count)
    && (e.firstTimestamp != 0 ==> n.firstSeen == e.firstTimestamp)
    && (e.firstTimestamp == 0 ==> n.firstSeen == e.eventTime)
    && (e.eventTime != 0 ==> n.lastSeen == e.eventTime)
    && (e.eventTime == 0 ==> n.lastSeen == e.lastTimestamp)
  }

  /**
    What normalising an event guarantees: who and what it is about, a count, a first-seen time
    whenever FirstTimestamp or EventTime is set, EventTime over LastTimestamp as the last-seen
    time, and the same words.
   */
  lemma NormalizeFills(clusterName: string, e: RawEvent)
    ensures var n := Normalize(clusterName, e);
            && IsRecordOf(clusterName, e, n)
            && n.count != 0
            && (n.firstSeen == 0 <==> e.firstTimestamp == 0 && e.eventTime == 0)
  {
    NormalizeKeepsWords(e.message);
    NormalizeIsSingleSpaced(e.message);
  }
}
