/** The coordinator's registry: entries, the connection cache, and the file they persist in. */
module ClusterRegistry {

  datatype ClusterEntry = ClusterEntry(clusterName: string, grpcEndpoint: string, labels: map<string, string>)

  type Entries = map<string, ClusterEntry>

  // ---- persistence ----

  /** A file holds a list of entries, or bytes that do not parse as one. */
  datatype Content = Listing(entries: seq<ClusterEntry>) | Garbage

  type Disk = map<string, Content>

  /** How far a save gets before an error stops it, and whether the temporary file could then be removed. */
  datatype SaveOutcome =
    | MarshalFails
    | CreateFails
    | WriteFails(cleaned: bool)
    | CloseFails(cleaned: bool)
    | RenameFails(cleaned: bool)
    | Succeeds

  /** What reading the file gives. */
  datatype ReadOutcome = ReadError | ReadOk

  /** `list` holds each entry of `m` once, under its own name. */
  ghost predicate Lists(list: seq<ClusterEntry>, m: Entries) {
    && (forall i, j :: 0 <= i < j < |list| ==> list[i].clusterName != list[j].clusterName)
    && (forall i :: 0 <= i < |list| ==> list[i].clusterName in m && m[list[i].clusterName] == list[i])
    && (forall n :: n in m ==> m[n] in list && m[n].clusterName == n)
  }

  /** Entries read one after the other, later ones winning. */
  function Overlay(m: Entries, list: seq<ClusterEntry>): Entries {
    if list == [] then m
    else Overlay(m, list[..|list|-1])[list[|list|-1].clusterName := list[|list|-1]]
  }

  /** The last entry listed under a name is read; a name that is not listed keeps what it had. */
  lemma {:induction false} OverlayLast(m: Entries, list: seq<ClusterEntry>, n: string)
    ensures n in Overlay(m, list) <==> n in m || exists i :: 0 <= i < |list| && list[i].clusterName == n
    ensures n in Overlay(m, list) ==>
              || IsLastListed(list, n, Overlay(m, list)[n])
              || ((forall i :: 0 <= i < |list| ==> list[i].clusterName != n) && Overlay(m, list)[n] == m[n])
  {
    if list == [] {
    } else {
      var p, last := list[..|list|-1], list[|list|-1];
      OverlayLast(m, p, n);
      if last.clusterName == n {
        assert list[|list|-1] == last;
        assert IsLastListed(list, n, last);
      } else if n in Overlay(m, p) && IsLastListed(p, n, Overlay(m, p)[n]) {
        var i :| 0 <= i < |p| && p[i] == Overlay(m, p)[n] && p[i].clusterName == n
                 && forall j :: i < j < |p| ==> p[j].clusterName != n;
        assert list[i] == p[i] && forall j :: i < j < |list| ==> list[j].clusterName != n;
      }
    }
  }

  ghost predicate IsLastListed(list: seq<ClusterEntry>, n: string, e: ClusterEntry) {
    exists i :: 0 <= i < |list| && list[i] == e && list[i].clusterName == n
                && forall j :: i < j < |list| ==> list[j].clusterName != n
  }

  lemma OverlayOfDistinct(m: Entries, list: seq<ClusterEntry>, n: string)
    requires forall i, j :: 0 <= i < j < |list| ==> list[i].clusterName != list[j].clusterName
    ensures n in Overlay(m, list) <==> n in m || exists i :: 0 <= i < |list| && list[i].clusterName == n
    ensures forall i :: 0 <= i < |list| && list[i].clusterName == n ==>
            n in Overlay(m, list) && Overlay(m, list)[n] == list[i]
  {
    OverlayLast(m, list, n);
  }

  /** Reading over existing entries: what the list names wins, the rest stays. */
  lemma {:induction false} OverlayOver(m: Entries, list: seq<ClusterEntry>, n: string)
    ensures n in Overlay(m, list) <==> n in m || n in Overlay(map[], list)
    ensures n in Overlay(m, list) ==>
            Overlay(m, list)[n] == if n in Overlay(map[], list) then Overlay(map[], list)[n] else m[n]
  {
    if list == [] {
    } else {
      OverlayOver(m, list[..|list|-1], n);
    }
  }

  /** Loading any ordering of a saved list rebuilds exactly the saved entries. */
  lemma LoadRebuilds(list: seq<ClusterEntry>, m: Entries)
    requires Lists(list, m)
    ensures Overlay(map[], list) == m
  {
    forall n
      ensures n in Overlay(map[], list) <==> n in m
      ensures n in m ==> Overlay(map[], list)[n] == m[n]
    {
      OverlayOfDistinct(map[], list, n);
      if n in m {
        var i :| 0 <= i < |list| && list[i] == m[n];
      }
    }
  }

  /** Every entry is stored under its own name. */
  ghost predicate Named(m: Entries) {
    forall n :: n in m ==> m[n].clusterName == n
  }

  /** Nothing that was there has changed; only a stray new file other than `path` may have appeared. */
  ghost predicate Untouched(path: string, disk: Disk, disk': Disk) {
    && (forall f :: f in disk ==> f in disk' && disk'[f] == disk[f])
    && (path in disk' ==> path in disk)
  }

  /** No file but `path` has changed. */
  ghost predicate OthersKept(path: string, disk: Disk, disk': Disk) {
    forall f :: f in disk && f != path ==> f in disk' && disk'[f] == disk[f]
  }

  /** Temp file, then rename: the named file changes only if every step succeeds. */
  method WriteAtomically(disk: Disk, path: string, list: seq<ClusterEntry>, outcome: SaveOutcome) returns (after: Disk)
    ensures outcome == Succeeds ==> after == disk[path := Listing(list)]
    ensures outcome != Succeeds ==> Untouched(path, disk, after)
    ensures outcome != Succeeds && (outcome.MarshalFails? || outcome.CreateFails? || outcome.cleaned) ==> after == disk
  {
    after := disk;
    if outcome.MarshalFails? || outcome.CreateFails? {
      return;
    }
    var tmpName := FreshName(disk.Keys + {path});
    after := after[tmpName := Garbage];
    if outcome.WriteFails? {
      after := Discard(after, tmpName, outcome.cleaned);
      return;
    }
    after := after[tmpName := Listing(list)];
    if outcome.CloseFails? || outcome.RenameFails? {
      after := Discard(after, tmpName, outcome.cleaned);
      return;
    }
    after := (after - {tmpName})[path := Listing(list)];
  }

  /** Best-effort removal of the temporary file. */
  function Discard(disk: Disk, name: string, cleaned: bool): Disk {
    if cleaned then disk - {name} else disk
  }

  /** A name not yet in use, as `os.CreateTemp` picks. */
  method FreshName(used: set<string>) returns (name: string)
    ensures name !in used
  {
    name := "";
    ghost var rest := used;
    while name in used
      invariant forall n :: n in used && |n| >= |name| ==> n in rest
      invariant rest <= used
      decreases |rest|
    {
      rest := rest - {name};
      name := name + "x";
    }
  }

  lemma {:induction false} OverlayNamed(m: Entries, list: seq<ClusterEntry>)
    requires Named(m)
    ensures Named(Overlay(m, list))
  {
    if list == [] {
    } else {
      OverlayNamed(m, list[..|list|-1]);
    }
  }

  method ReadOver(before: Entries, list: seq<ClusterEntry>) returns (entries: Entries)
    ensures entries == Overlay(before, list)
  {
    entries := before;
    for i := 0 to |list|
      invariant entries == Overlay(before, list[..i])
    {
      assert list[..i + 1][..i] == list[..i];
      entries := entries[list[i].clusterName := list[i]];
    }
    assert list[..|list|] == list;
  }

  /** The entries in whatever order the map is walked. */
  method ListEntries(entries: Entries) returns (list: seq<ClusterEntry>)
    requires Named(entries)
    ensures Lists(list, entries)
  {
    list := [];
    var todo := entries.Keys;
    while todo != {}
      invariant todo <= entries.Keys
      invariant forall i, j :: 0 <= i < j < |list| ==> list[i].clusterName != list[j].clusterName
      invariant forall i :: 0 <= i < |list| ==>
                list[i].clusterName in entries.Keys - todo && entries[list[i].clusterName] == list[i]
      invariant forall n :: n in entries && n !in todo ==> entries[n] in list
      decreases todo
    {
      var n :| n in todo;
      list := list + [entries[n]];
      todo := todo - {n};
    }
  }

  // ---- connections ----

  datatype Conn = Conn(id: nat, endpoint: string)

  datatype Option<T> = None | Some(value: T)

  ghost predicate IsCached(conns: map<string, Conn>, c: Conn) {
    exists n :: n in conns && conns[n] == c
  }

  /** Every connection ever dialled is either cached under one name or closed once, never both. */
  ghost predicate Conserved(conns: map<string, Conn>, dials: seq<Conn>, closed: seq<Conn>) {
    && (forall i :: 0 <= i < |dials| ==> dials[i].id == i)
    && (forall c :: IsCached(conns, c) || c in closed <==> c in dials)
    && (forall c :: !(IsCached(conns, c) && c in closed))
    && (forall n, n' :: n in conns && n' in conns && n != n' ==> conns[n] != conns[n'])
    && (forall i, j :: 0 <= i < j < |closed| ==> closed[i] != closed[j])
  }

  /** Each cached connection is under a registered name and dialled to its current endpoint. */
  ghost predicate Current(conns: map<string, Conn>, entries: Entries) {
    forall n :: n in conns ==> n in entries && conns[n].endpoint == entries[n].grpcEndpoint
  }

  lemma LoadKeepsCurrent(conns: map<string, Conn>, entries: Entries, list: seq<ClusterEntry>)
    requires Current(conns, entries)
    ensures Current(conns, Overlay(entries, list)) <==>
            var listed := Overlay(map[], list);
            forall n :: n in conns && n in listed ==> listed[n].grpcEndpoint == conns[n].endpoint
  {
    forall n
      ensures n in Overlay(entries, list) <==> n in entries || n in Overlay(map[], list)
      ensures n in Overlay(entries, list) ==>
              Overlay(entries, list)[n] == if n in Overlay(map[], list) then Overlay(map[], list)[n] else entries[n]
    {
      OverlayOver(entries, list, n);
    }
  }

  lemma ConservedOpen(conns: map<string, Conn>, dials: seq<Conn>, closed: seq<Conn>, n: string, endpoint: string)
    requires Conserved(conns, dials, closed) && n !in conns
    ensures var c := Conn(|dials|, endpoint);
            Conserved(conns[n := c], dials + [c], closed)
  {
    var c := Conn(|dials|, endpoint);
    var conns' := conns[n := c];
    assert c !in dials;
    forall d
      ensures IsCached(conns', d) <==> IsCached(conns, d) || d == c
    {
      if IsCached(conns, d) {
        var m :| m in conns && conns[m] == d;
        assert conns'[m] == d;
      }
      assert conns'[n] == c;
    }
    assert !IsCached(conns, c) && c !in closed;
    assert forall m :: m in conns ==> IsCached(conns, conns[m]);
  }

  lemma ConservedClose(conns: map<string, Conn>, dials: seq<Conn>, closed: seq<Conn>, n: string)
    requires Conserved(conns, dials, closed) && n in conns
    ensures Conserved(conns - {n}, dials, closed + [conns[n]])
  {
    var c := conns[n];
    var conns' := conns - {n};
    assert IsCached(conns, c);
    forall d
      ensures IsCached(conns', d) <==> IsCached(conns, d) && d != c
    {
      if IsCached(conns, d) && d != c {
        var m :| m in conns && conns[m] == d;
        assert m in conns' && conns'[m] == d;
      }
    }
  }

  /**
    A save that succeeds replaces the file; any other leaves every existing file and the record
    of the last save as they were.
   */
  ghost predicate SaveEffect(path: string, outcome: SaveOutcome, entries: Entries, disk: Disk, saved: Option<Entries>,
                             disk': Disk, saved': Option<Entries>)
  {
    if path != "" && outcome == Succeeds then
      && saved' == Some(entries)
      && path in disk' && disk'[path].Listing? && Lists(disk'[path].entries, entries)
      && disk' - {path} == disk - {path}
    else Untouched(path, disk, disk') && saved' == saved
  }

  lemma SaveKeepsOthers(path: string, outcome: SaveOutcome, entries: Entries, disk: Disk, saved: Option<Entries>,
                        disk': Disk, saved': Option<Entries>)
    requires SaveEffect(path, outcome, entries, disk, saved, disk', saved')
    ensures OthersKept(path, disk, disk')
  {
    forall f | f in disk && f != path
      ensures f in disk' && disk'[f] == disk[f]
    {
      assert f in disk - {path};
    }
  }

  datatype Operation =
    | RegisterOp(entry: ClusterEntry, outcome: SaveOutcome)
    | UnregisterOp(name: string, outcome: SaveOutcome)
    | ClientOp(name: string, dialOk: bool)

  /** The entries after an operation, and after a sequence of them. */
  function Applied(m: Entries, op: Operation): Entries {
    match op
    case RegisterOp(entry, _) => m[entry.clusterName := entry]
    case UnregisterOp(name, _) => m - {name}
    case ClientOp(_, _) => m
  }

  function AppliedAll(m: Entries, ops: seq<Operation>): Entries {
    if ops == [] then m else Applied(AppliedAll(m, ops[..|ops|-1]), ops[|ops|-1])
  }

  // ---- what survives a restart ----

  /** The operation replaces the file. */
  predicate Saves(path: string, op: Operation) {
    path != "" && !op.ClientOp? && op.outcome == Succeeds
  }

  /** The entries as of the last successful save of a run that started from `m`, if there was one. */
  function LastSaved(path: string, m: Entries, ops: seq<Operation>): Option<Entries> {
    if ops == [] then None
    else if Saves(path, ops[|ops|-1]) then Some(AppliedAll(m, ops))
    else LastSaved(path, m, ops[..|ops|-1])
  }

  lemma OperationStep(path: string, m: Entries, ops: seq<Operation>, i: nat)
    requires i < |ops|
    ensures AppliedAll(m, ops[..i + 1]) == Applied(AppliedAll(m, ops[..i]), ops[i])
    ensures LastSaved(path, m, ops[..i + 1]) ==
            if Saves(path, ops[i]) then Some(AppliedAll(m, ops[..i + 1])) else LastSaved(path, m, ops[..i])
  {
    assert ops[..i + 1][..i] == ops[..i];
  }

  /** What a registry that reads the file finds there. */
  function FileEntries(path: string, disk: Disk): Entries {
    if path != "" && path in disk && disk[path].Listing? then Overlay(map[], disk[path].entries) else map[]
  }

  /** One process: how its initial load went, and what it did. A failed load is only logged. */
  datatype Lifetime = Lifetime(read: ReadOutcome, ops: seq<Operation>) {
    /** The entries it starts from, when the file lists `file`. */
    function Start(file: Entries): Entries {
      if read.ReadOk? then file else map[]
    }
  }

  /** What the file lists after a lifetime, and after a sequence of them. */
  function Persisted(path: string, file: Entries, life: Lifetime): Entries {
    var saved := LastSaved(path, life.Start(file), life.ops);
    if saved.Some? then saved.value else file
  }

  function PersistedAll(path: string, file: Entries, lives: seq<Lifetime>): Entries {
    if lives == [] then file
    else Persisted(path, PersistedAll(path, file, lives[..|lives|-1]), lives[|lives|-1])
  }

  /** The last operation that writes, if any, is saved. */
  predicate EndsSaved(path: string, ops: seq<Operation>) {
    if ops == [] then true
    else if ops[|ops|-1].ClientOp? then EndsSaved(path, ops[..|ops|-1])
    else Saves(path, ops[|ops|-1])
  }

  lemma {:induction false} EndsSavedPersists(path: string, m: Entries, ops: seq<Operation>)
    requires EndsSaved(path, ops)
    ensures AppliedAll(m, ops) == var saved := LastSaved(path, m, ops); if saved.Some? then saved.value else m
  {
    if ops == [] || !ops[|ops|-1].ClientOp? {
    } else {
      EndsSavedPersists(path, m, ops[..|ops|-1]);
    }
  }

  function AllOps(lives: seq<Lifetime>): seq<Operation> {
    if lives == [] then [] else AllOps(lives[..|lives|-1]) + lives[|lives|-1].ops
  }

  lemma {:induction false} AppliedConcat(m: Entries, a: seq<Operation>, b: seq<Operation>)
    ensures AppliedAll(m, a + b) == AppliedAll(AppliedAll(m, a), b)
  {
    if b == [] {
      assert a + b == a;
    } else {
      AppliedConcat(m, a, b[..|b|-1]);
      assert (a + b)[..|a + b|-1] == a + b[..|b|-1];
    }
  }

  /** Restarts lose nothing as long as files are readable and the last write of each lifetime is saved. */
  lemma {:induction false} RestartsAreInvisible(path: string, file: Entries, lives: seq<Lifetime>)
    requires forall i :: 0 <= i < |lives| ==> lives[i].read.ReadOk? && EndsSaved(path, lives[i].ops)
    ensures PersistedAll(path, file, lives) == AppliedAll(file, AllOps(lives))
  {
    if lives == [] {
    } else {
      var before, last := lives[..|lives|-1], lives[|lives|-1];
      RestartsAreInvisible(path, file, before);
      EndsSavedPersists(path, PersistedAll(path, file, before), last.ops);
      AppliedConcat(file, AllOps(before), last.ops);
    }
  }

  class Registry {
    var entries: Entries
    var conns: map<string, Conn>
    var dialled: nat             // identity of the next connection
    const filePath: string       // empty: in memory only
    var disk: Disk               // the file system, written by this registry alone

    ghost var dials: seq<Conn>   // every connection ever dialled
    ghost var closed: seq<Conn>  // the argument of every Close call, in order
    ghost var saved: Option<Entries>

    ghost predicate Valid()
      reads this
    {
      && Named(entries)
      && Conserved(conns, dials, closed) && dialled == |dials|
      && (saved.Some? ==>
            && filePath != "" && filePath in disk && disk[filePath].Listing?
            && Lists(disk[filePath].entries, saved.value))
    }

    constructor (filePath: string, disk: Disk)
      ensures Valid() && entries == map[] && conns == map[] && saved == None
      ensures this.filePath == filePath && this.disk == disk
    {
      entries, conns, dialled := map[], map[], 0;
      this.filePath, this.disk := filePath, disk;
      dials, closed, saved := [], [], None;
    }

    /** What a load finds, if anything. */
    ghost function Loadable(read: ReadOutcome): Option<seq<ClusterEntry>>
      reads this
    {
      if filePath != "" && filePath in disk && read.ReadOk? && disk[filePath].Listing? then
        Some(disk[filePath].entries)
      else None
    }

    /**
      Connections are left alone, so they stay current exactly when no cached cluster is loaded
      with another endpoint.
     */
    method Load(read: ReadOutcome) returns (ok: bool)
      requires Valid()
      modifies this`entries
      ensures Valid()
      ensures Loadable(read).Some? ==> ok && entries == Overlay(old(entries), Loadable(read).value)
      ensures Loadable(read).None? ==> entries == old(entries) && (ok <==> filePath == "" || filePath !in disk)
      ensures filePath == "" || filePath !in disk ==> ok && entries == old(entries)
      ensures filePath != "" && filePath in disk && (read.ReadError? || disk[filePath].Garbage?) ==>
                !ok && entries == old(entries)
      ensures filePath != "" && filePath in disk && read.ReadOk? && disk[filePath].Listing? ==>
                ok && forall n :: n in entries ==> IsLastListed(disk[filePath].entries, n, entries[n])
                                                   || (n in old(entries) && entries[n] == old(entries)[n])
      ensures Loadable(read).Some? && Current(conns, old(entries)) ==>
                (Current(conns, entries) <==>
                 var listed := Overlay(map[], Loadable(read).value);
                 forall n :: n in conns && n in listed ==> listed[n].grpcEndpoint == conns[n].endpoint)
    {
      if filePath == "" {
        return true;
      }
      if filePath !in disk {
        return true;
      }
      if read.ReadError? || disk[filePath].Garbage? {
        return false;
      }
      var list := disk[filePath].entries;
      entries := ReadOver(entries, list);
      OverlayNamed(old(entries), list);
      forall n | n in entries
        ensures IsLastListed(list, n, entries[n]) || (n in old(entries) && entries[n] == old(entries)[n])
      {
        OverlayLast(old(entries), list, n);
      }
      if Current(conns, old(entries)) {
        LoadKeepsCurrent(conns, old(entries), list);
      }
      ok := true;
    }

    method Register(entry: ClusterEntry, outcome: SaveOutcome)
      requires Valid()
      modifies this
      ensures Valid()
      ensures entries == old(entries)[entry.clusterName := entry]
      ensures conns == old(conns) - {entry.clusterName} && dials == old(dials)
      ensures closed == old(closed) + (if entry.clusterName in old(conns) then [old(conns)[entry.clusterName]] else [])
      ensures old(Current(conns, entries)) ==> Current(conns, entries)
      ensures SaveEffect(filePath, outcome, entries, old(disk), old(saved), disk, saved)
    {
      CloseConn(entry.clusterName);
      entries := entries[entry.clusterName := entry];
      Save(outcome);
    }

    method Unregister(name: string, outcome: SaveOutcome)
      requires Valid()
      modifies this
      ensures Valid()
      ensures entries == old(entries) - {name}
      ensures conns == old(conns) - {name} && dials == old(dials)
      ensures closed == old(closed) + (if name in old(conns) then [old(conns)[name]] else [])
      ensures old(Current(conns, entries)) ==> Current(conns, entries)
      ensures SaveEffect(filePath, outcome, entries, old(disk), old(saved), disk, saved)
    {
      CloseConn(name);
      entries := entries - {name};
      Save(outcome);
    }

    /** Close and forget the cached connection of a name, if there is one. */
    method CloseConn(name: string)
      requires Conserved(conns, dials, closed)
      modifies this`conns, this`closed
      ensures Conserved(conns, dials, closed)
      ensures conns == old(conns) - {name}
      ensures closed == old(closed) + (if name in old(conns) then [old(conns)[name]] else [])
    {
      if name in conns {
        ConservedClose(conns, dials, closed, name);
        closed := closed + [conns[name]];
        conns := conns - {name};
      }
    }

    /** Reuses the cached connection, else dials the registered endpoint. */
    method Client(name: string, dialOk: bool) returns (c: Option<Conn>)
      requires Valid()
      modifies this`conns, this`dials, this`dialled
      ensures Valid()
      ensures old(Current(conns, entries)) ==> Current(conns, entries)
      ensures name in old(conns) ==> c == Some(old(conns)[name]) && conns == old(conns) && dials == old(dials)
      ensures name !in old(conns) && name in entries && dialOk ==>
                c == Some(Conn(|old(dials)|, entries[name].grpcEndpoint))
                && conns == old(conns)[name := c.value] && dials == old(dials) + [c.value]
      ensures name !in old(conns) && !(name in entries && dialOk) ==>
              c == None && conns == old(conns) && dials == old(dials)
    {
      if name in conns {
        return Some(conns[name]);
      }
      if name !in entries {
        return None;
      }
      if !dialOk {
        return None;
      }
      ConservedOpen(conns, dials, closed, name, entries[name].grpcEndpoint);
      var conn := Conn(dialled, entries[name].grpcEndpoint);
      dialled := dialled + 1;
      dials := dials + [conn];
      conns := conns[name := conn];
      return Some(conn);
    }

    /** Writes the entries, listed in whatever order the map is walked, through a temporary file. */
    method Save(outcome: SaveOutcome)
      requires Valid()
      modifies this`disk, this`saved
      ensures Valid()
      ensures SaveEffect(filePath, outcome, entries, old(disk), old(saved), disk, saved)
    {
      if filePath == "" {
        return;
      }
      var list := ListEntries(entries);
      disk := WriteAtomically(disk, filePath, list, outcome);
      if outcome == Succeeds {
        saved := Some(entries);
      }
    }

    method Perform(op: Operation)
      requires Valid() && Current(conns, entries)
      modifies this
      ensures Valid() && Current(conns, entries)
      ensures entries == Applied(old(entries), op)
      ensures op.ClientOp? ==> (op.name in conns <==> op.name in old(conns) || (op.name in entries && op.dialOk))
      ensures op.ClientOp? ==> disk == old(disk)
      ensures saved == if Saves(filePath, op) then Some(entries) else old(saved)
      ensures !Saves(filePath, op) ==> Untouched(filePath, old(disk), disk)
      ensures OthersKept(filePath, old(disk), disk)
    {
      match op {
        case RegisterOp(entry, outcome) => Register(entry, outcome);
        case UnregisterOp(name, outcome) => Unregister(name, outcome);
        case ClientOp(name, dialOk) => var _ := Client(name, dialOk);
      }
      if !op.ClientOp? {
        SaveKeepsOthers(filePath, op.outcome, entries, old(disk), old(saved), disk, saved);
      }
    }

    /** A process lifetime: one load into a new registry, then any mix of operations. */
    method Run(life: Lifetime)
      requires Valid() && conns == map[] && entries == map[]
      modifies this
      ensures Valid() && Current(conns, entries)
      ensures var start := life.Start(FileEntries(filePath, old(disk)));
              && entries == AppliedAll(start, life.ops)
              && saved == (var last := LastSaved(filePath, start, life.ops); if last.Some? then last else old(saved))
              && (LastSaved(filePath, start, life.ops).None? ==> Untouched(filePath, old(disk), disk))
      ensures FileEntries(filePath, disk) == Persisted(filePath, FileEntries(filePath, old(disk)), life)
      ensures OthersKept(filePath, old(disk), disk)
    {
      var _ := Load(life.read);
      ghost var start := entries;
      for i := 0 to |life.ops|
        invariant Valid() && Current(conns, entries)
        invariant entries == AppliedAll(start, life.ops[..i])
        invariant var last := LastSaved(filePath, start, life.ops[..i]);
                  saved == if last.Some? then last else old(saved)
        invariant LastSaved(filePath, start, life.ops[..i]).None? ==> Untouched(filePath, old(disk), disk)
        invariant OthersKept(filePath, old(disk), disk)
      {
        OperationStep(filePath, start, life.ops, i);
        Perform(life.ops[i]);
      }
      assert life.ops[..|life.ops|] == life.ops;
      if LastSaved(filePath, start, life.ops).Some? {
        LoadRebuilds(disk[filePath].entries, saved.value);
      }
    }

    /** After a restart, loading the file gives back the entries of the last successful save. */
    lemma RestartRestores(read: ReadOutcome)
      requires Valid() && saved.Some? && read.ReadOk?
      ensures Loadable(read).Some? && Overlay(map[], Loadable(read).value) == saved.value
      ensures FileEntries(filePath, disk) == saved.value
    {
      LoadRebuilds(disk[filePath].entries, saved.value);
    }
  }

  /**
    Two lifetimes: after a run and a restart on the same disk, loading gives the entries of
    the last successful save, or those the file listed before when there was none.
   */
  method Restart(path: string, disk: Disk, life: Lifetime) returns (r: Registry)
    ensures fresh(r) && r.Valid() && r.conns == map[]
    ensures r.entries == Persisted(path, FileEntries(path, disk), life)
  {
    var before := new Registry(path, disk);
    before.Run(life);
    r := new Registry(path, before.disk);
    var _ := r.Load(ReadOk);
  }

  /** Any number of lifetimes, one after the other, on one disk. */
  method RunLifetimes(path: string, disk: Disk, lives: seq<Lifetime>) returns (after: Disk)
    ensures FileEntries(path, after) == PersistedAll(path, FileEntries(path, disk), lives)
    ensures OthersKept(path, disk, after)
  {
    after := disk;
    for i := 0 to |lives|
      invariant FileEntries(path, after) == PersistedAll(path, FileEntries(path, disk), lives[..i])
      invariant OthersKept(path, disk, after)
    {
      assert lives[..i + 1][..i] == lives[..i];
      var r := new Registry(path, after);
      r.Run(lives[i]);
      after := r.disk;
    }
    assert lives[..|lives|] == lives;
  }
}
