// The revisioned store every component shares: one revision per write, compare
// and swap on `mod_revision`, one logged event per write, replayed by watches.
module Storage {
  import opened Options
  import opened Json

  datatype Key = Key(group: string, resource: string, namespace: string, name: string) {
    /** `/registry/[group/]resource/[namespace/]name`. */
    function AsPath(): string {
      "/registry" + (if group == "" then "" else "/" + group) + "/" + resource
      + (if namespace == "" then "" else "/" + namespace) + "/" + name
    }

    predicate IsValid() {
      resource != "" && name != ""
    }
  }

  predicate IsSegment(s: string) {
    s != "" && '/' !in s
  }

  /** A collection: one resource, in one namespace or in all of them. */
  datatype KeyPrefix = KeyPrefix(group: string, resource: string, namespace: Option<string>) {
    function AsPath(): string {
      Base() + (if namespace.Some? then "/" + namespace.value else "")
    }

    function Base(): string {
      "/registry" + (if group == "" then "" else "/" + group) + "/" + resource
    }

    /** What LIST and WATCH select by: a plain string prefix. */
    predicate Covers(path: string) {
      AsPath() + "/" <= path
    }

    predicate WellFormed() {
      && (group != "" ==> IsSegment(group)) && IsSegment(resource)
      && (namespace.Some? ==> IsSegment(namespace.value))
    }
  }

  datatype Entry = Entry(key: string, value: Value, createRevision: nat, modRevision: nat, version: nat)

  datatype Event =
    | Put(entry: Entry)
    | Delete(key: string, modRevision: nat, prev: Option<Entry>)
  {
    function Revision(): nat {
      if Put? then entry.modRevision else modRevision
    }

    function Path(): string {
      if Put? then entry.key else key
    }
  }

  datatype StorageError = AlreadyExists | NotFound | Conflict | InvalidKey

  datatype Store = Store(revision: nat, entries: map<string, Entry>, log: seq<Event>) {
    function Get(path: string): Option<Entry> {
      if path in entries then Some(entries[path]) else None
    }

    function Write(entry: Entry): Store {
      Store(revision + 1, entries[entry.key := entry], log + [Put(entry)])
    }

    function Create(key: Key, value: Value): (r: (Store, Result<Entry, StorageError>)) {
      var path := key.AsPath();
      if !key.IsValid() then (this, Err(InvalidKey)) else
      if path in entries then (this, Err(AlreadyExists)) else
        var entry := Entry(path, value, revision + 1, revision + 1, 1);
        (Write(entry), Ok(entry))
    }

    function Update(key: Key, value: Value, ifRevision: Option<nat>): (r: (Store, Result<Entry, StorageError>)) {
      var path := key.AsPath();
      if path !in entries then (this, Err(NotFound)) else
        var cur := entries[path];
        if ifRevision.Some? && cur.modRevision != ifRevision.value then (this, Err(Conflict)) else
          var entry := Entry(path, value, cur.createRevision, revision + 1, cur.version + 1);
          (Write(entry), Ok(entry))
    }

    function Remove(key: Key, ifRevision: Option<nat>): (r: (Store, Result<Option<Entry>, StorageError>)) {
      var path := key.AsPath();
      if path !in entries then (this, Ok(None)) else
        var cur := entries[path];
        if ifRevision.Some? && cur.modRevision != ifRevision.value then (this, Err(Conflict)) else
          (Store(revision + 1, entries - {path}, log + [Delete(path, revision + 1, Some(cur))]), Ok(Some(cur)))
    }

    /** What every write keeps: one event per revision, and the entries are what the log says. */
    predicate Valid() {
      && |log| == revision
      && (forall i :: 0 <= i < |log| ==> log[i].Revision() == i + 1)
      && entries == Replay(log)
      && Tombstones(log)
    }
  }

  /** Every deletion carries the entry it removed. */
  predicate Tombstones(log: seq<Event>) {
    forall i :: 0 <= i < |log| && log[i].Delete? ==>
      log[i].key in Replay(log[..i]) && log[i].prev == Some(Replay(log[..i])[log[i].key])
  }

  const EMPTY_STORE := Store(0, map[], [])

  /** The entries after a run of events. */
  function Replay(log: seq<Event>): map<string, Entry> {
    if log == [] then map[] else
      var before := Replay(log[..|log| - 1]);
      match log[|log| - 1]
      case Put(entry) => before[entry.key := entry]
      case Delete(key, _, _) => before - {key}
  }

  /** Any of the three writes. */
  datatype Op =
    | DoCreate(key: Key, value: Value)
    | DoUpdate(key: Key, value: Value, ifRevision: Option<nat>)
    | DoRemove(key: Key, ifRevision: Option<nat>)

  function Apply(s: Store, op: Op): Store {
    match op
    case DoCreate(key, value) => s.Create(key, value).0
    case DoUpdate(key, value, ifRevision) => s.Update(key, value, ifRevision).0
    case DoRemove(key, ifRevision) => s.Remove(key, ifRevision).0
  }

  /** Every write keeps the store valid and extends its log by at most one event. */
  lemma ApplyKeepsValid(s: Store, op: Op)
    requires s.Valid()
    ensures Apply(s, op).Valid()
    ensures Apply(s, op) == s || (|Apply(s, op).log| == |s.log| + 1 && Apply(s, op).log[..|s.log|] == s.log)
  {
    var s' := Apply(s, op);
    if s' != s {
      assert s'.log[..|s.log|] == s.log;
      TombstonesSnoc(s.log, s'.log[|s.log|]);
      assert s'.log == s.log + [s'.log[|s.log|]];
    }
  }

  lemma TombstonesSnoc(log: seq<Event>, ev: Event)
    requires Tombstones(log)
    requires ev.Delete? ==> ev.key in Replay(log) && ev.prev == Some(Replay(log)[ev.key])
    ensures Tombstones(log + [ev])
  {
    var all := log + [ev];
    assert all[..|log|] == log;
    forall i | 0 <= i < |log| ensures all[i] == log[i] && all[..i] == log[..i] {
    }
  }

  /** A live entry is the last thing written under its path, at its own revision. */
  lemma {:induction false} LiveEntryIsLogged(log: seq<Event>, path: string)
    requires forall i :: 0 <= i < |log| ==> log[i].Revision() == i + 1
    requires path in Replay(log)
    ensures
      var e := Replay(log)[path];
      && e.key == path && 1 <= e.modRevision <= |log| && log[e.modRevision - 1] == Put(e)
      && forall i :: e.modRevision <= i < |log| ==> log[i].Path() != path
  {
    var front := log[..|log| - 1];
    if log[|log| - 1].Path() != path {
      LiveEntryIsLogged(front, path);
    }
  }

  /** The log holds a put of `path` at revision `r`. */
  predicate PutAt(log: seq<Event>, r: nat, path: string) {
    1 <= r <= |log| && log[r - 1].Put? && log[r - 1].entry.key == path
  }

  /** How many puts of `path` have revisions from `from` to `upTo`. */
  function Puts(log: seq<Event>, from: nat, upTo: nat, path: string): nat
    requires upTo <= |log|
    decreases upTo
  {
    if upTo == 0 || upTo < from then 0 else
      Puts(log, from, upTo - 1, path) + if PutAt(log, upTo, path) then 1 else 0
  }

  /**
   * The life of an entry: it was created at its create revision, at version 1,
   * has not been deleted since, and its version counts its puts.
   */
  ghost predicate Lived(log: seq<Event>, e: Entry) {
    && PutAt(log, e.createRevision, e.key) && log[e.createRevision - 1].entry.createRevision == e.createRevision
    && log[e.createRevision - 1].entry.version == 1
    && (forall i :: e.createRevision <= i < |log| ==> !(log[i].Delete? && log[i].key == e.key))
    && e.version == Puts(log, e.createRevision, |log|, e.key)
  }

  ghost predicate AllLived(s: Store) {
    forall path :: path in s.entries ==> s.entries[path].key == path && Lived(s.log, s.entries[path])
  }

  lemma {:induction false} PutsOfPrefix(log: seq<Event>, ev: Event, from: nat, upTo: nat, path: string)
    requires upTo <= |log|
    ensures Puts(log + [ev], from, upTo, path) == Puts(log, from, upTo, path)
  {
    if upTo > 0 && from <= upTo {
      PutsOfPrefix(log, ev, from, upTo - 1, path);
    }
  }

  lemma LivedSnoc(log: seq<Event>, e: Entry, ev: Event)
    requires Lived(log, e) && ev.Path() != e.key
    ensures Lived(log + [ev], e)
  {
    var all := log + [ev];
    PutsOfPrefix(log, ev, e.createRevision, |log|, e.key);
    assert all[e.createRevision - 1] == log[e.createRevision - 1];
  }

  /** Every write keeps the life of every entry on record. */
  lemma ApplyKeepsLives(s: Store, op: Op)
    requires s.Valid() && AllLived(s)
    ensures AllLived(Apply(s, op))
  {
    hide Lived, Replay, Tombstones;
    var s' := Apply(s, op);
    if s' != s {
      var ev := s'.log[|s.log|];
      assert s'.log == s.log + [ev];
      forall path | path in s'.entries ensures s'.entries[path].key == path && Lived(s'.log, s'.entries[path]) {
        if path != ev.Path() {
          LivedSnoc(s.log, s.entries[path], ev);
        } else {
          WrittenLives(s, ev.entry, path);
        }
      }
    }
  }

  lemma WrittenLives(s: Store, e: Entry, path: string)
    requires s.Valid() && e.key == path && e.modRevision == s.revision + 1
    requires path !in s.entries ==> e.createRevision == e.modRevision && e.version == 1
    requires path in s.entries ==>
      var cur := s.entries[path];
      cur.key == path && Lived(s.log, cur) && e.createRevision == cur.createRevision && e.version == cur.version + 1
    ensures Lived(s.log + [Put(e)], e)
  {
    hide Replay, Tombstones;
    var all := s.log + [Put(e)];
    PutsOfPrefix(s.log, Put(e), e.createRevision, |s.log|, path);
    if path in s.entries {
      assert all[e.createRevision - 1] == s.log[e.createRevision - 1];
    }
  }

  function ApplyAll(ops: seq<Op>): Store {
    if ops == [] then EMPTY_STORE else Apply(ApplyAll(ops[..|ops| - 1]), ops[|ops| - 1])
  }

  /** Over every run of writes the store is valid and every entry's life is on record. */
  lemma {:induction false} EveryLifeIsOnRecord(ops: seq<Op>)
    ensures ApplyAll(ops).Valid() && AllLived(ApplyAll(ops))
  {
    if ops != [] {
      var s := ApplyAll(ops[..|ops| - 1]);
      EveryLifeIsOnRecord(ops[..|ops| - 1]);
      ApplyKeepsValid(s, ops[|ops| - 1]);
      ApplyKeepsLives(s, ops[|ops| - 1]);
    }
  }

  /** Two snapshots of one path with one revision are one snapshot: what compare-and-swap rests on. */
  lemma SameRevisionSameEntry(s: Store, path: string, seen: Entry)
    requires s.Valid() && path in s.entries && s.entries[path].modRevision == seen.modRevision
    requires 1 <= seen.modRevision <= |s.log| && s.log[seen.modRevision - 1] == Put(seen)
    ensures s.entries[path] == seen
  {
    LiveEntryIsLogged(s.log, path);
  }

  /** A LIST: every covered entry once, in some order. */
  ghost predicate IsListing(prefix: KeyPrefix, entries: map<string, Entry>, listed: seq<Entry>) {
    && (forall i :: 0 <= i < |listed| ==>
          listed[i].key in entries && entries[listed[i].key] == listed[i] && prefix.Covers(listed[i].key))
    && (forall path :: path in entries && prefix.Covers(path) ==>
      exists i :: 0 <= i < |listed| && listed[i].key == path)
    && DistinctPaths(listed)
  }

  ghost predicate RevisionOrdered(listed: seq<Entry>) {
    forall i, j :: 0 <= i < j < |listed| ==> listed[i].modRevision <= listed[j].modRevision
  }

  /** Put an entry where its revision belongs. */
  function InsertByRevision(e: Entry, listed: seq<Entry>): seq<Entry> {
    if listed == [] then [e] else
    if listed[0].modRevision <= e.modRevision then [listed[0]] + InsertByRevision(e, listed[1..]) else [e] + listed
  }

  lemma {:induction false} InsertHas(e: Entry, listed: seq<Entry>)
    ensures forall x :: x in InsertByRevision(e, listed) <==> x == e || x in listed
  {
    if listed != [] {
      InsertHas(e, listed[1..]);
      assert listed == [listed[0]] + listed[1..];
    }
  }

  lemma OrderedCons(h: Entry, rest: seq<Entry>)
    requires RevisionOrdered(rest) && forall y :: y in rest ==> h.modRevision <= y.modRevision
    ensures RevisionOrdered([h] + rest)
  {
    forall j | 0 <= j < |rest| ensures h.modRevision <= rest[j].modRevision { assert rest[j] in rest; }
  }

  lemma OrderedParts(listed: seq<Entry>)
    requires RevisionOrdered(listed) && listed != []
    ensures RevisionOrdered(listed[1..])
    ensures forall y :: y in listed ==> listed[0].modRevision <= y.modRevision
  {
  }

  lemma {:induction false} InsertOrdered(e: Entry, listed: seq<Entry>)
    requires RevisionOrdered(listed)
    ensures RevisionOrdered(InsertByRevision(e, listed))
  {
    hide RevisionOrdered;
    if listed == [] {
      OrderedCons(e, []) by { NothingOrdered(); }
      assert [e] + [] == [e];
    } else {
      OrderedParts(listed);
      if listed[0].modRevision <= e.modRevision {
        InsertOrdered(e, listed[1..]);
        InsertHas(e, listed[1..]);
        OrderedCons(listed[0], InsertByRevision(e, listed[1..]));
      } else {
        OrderedCons(e, listed);
      }
    }
  }

  lemma NothingOrdered()
    ensures RevisionOrdered([]) && DistinctPaths([])
  {
  }

  lemma DistinctCons(h: Entry, rest: seq<Entry>)
    requires DistinctPaths(rest) && forall y :: y in rest ==> y.key != h.key
    ensures DistinctPaths([h] + rest)
  {
    forall j | 0 <= j < |rest| ensures h.key != rest[j].key { assert rest[j] in rest; }
  }

  lemma DistinctParts(listed: seq<Entry>)
    requires DistinctPaths(listed) && listed != []
    ensures DistinctPaths(listed[1..]) && forall y :: y in listed[1..] ==> y.key != listed[0].key
  {
  }

  lemma {:induction false} InsertDistinct(e: Entry, listed: seq<Entry>)
    requires DistinctPaths(listed) && forall x :: x in listed ==> x.key != e.key
    ensures DistinctPaths(InsertByRevision(e, listed))
  {
    hide DistinctPaths;
    if listed == [] {
      DistinctCons(e, []) by { NothingOrdered(); }
      assert [e] + [] == [e];
    } else if listed[0].modRevision <= e.modRevision {
      DistinctParts(listed);
      InsertDistinct(e, listed[1..]);
      InsertHas(e, listed[1..]);
      DistinctCons(listed[0], InsertByRevision(e, listed[1..]));
    } else {
      DistinctCons(e, listed);
    }
  }

  lemma ListedIsListing(s: Store, prefix: KeyPrefix, listed: seq<Entry>)
    requires s.Valid() && DistinctPaths(listed)
    requires forall x :: x in listed <==> x.key in s.entries && prefix.Covers(x.key) && s.entries[x.key] == x
    ensures IsListing(prefix, s.entries, listed)
  {
    forall i | 0 <= i < |listed|
      ensures listed[i].key in s.entries && s.entries[listed[i].key] == listed[i] && prefix.Covers(listed[i].key)
    {
      assert listed[i] in listed;
    }
    forall path | path in s.entries && prefix.Covers(path)
      ensures exists i :: 0 <= i < |listed| && listed[i].key == path
    {
      LiveEntryIsLogged(s.log, path);
      assert s.entries[path] in listed;
    }
  }

  ghost predicate DistinctPaths(listed: seq<Entry>) {
    forall i, j :: 0 <= i < j < |listed| ==> listed[i].key != listed[j].key
  }

  /** `EmbeddedStorage`, updated in place. */
  class EmbeddedStorage {
    var revision: nat
    var entries: map<string, Entry>
    var log: seq<Event>

    function State(): Store
      reads this
    {
      Store(revision, entries, log)
    }

    constructor ()
      ensures State() == EMPTY_STORE && State().Valid()
    {
      revision, entries, log := 0, map[], [];
    }

    method Get(path: string) returns (found: Option<Entry>)
      ensures found == State().Get(path)
    {
      found := if path in entries then Some(entries[path]) else None;
    }

    /** Every covered entry, in revision order. */
    method List(prefix: KeyPrefix) returns (listed: seq<Entry>)
      requires State().Valid()
      ensures IsListing(prefix, entries, listed) && RevisionOrdered(listed)
    {
      hide RevisionOrdered, DistinctPaths, InsertByRevision, IsListing, Replay, Tombstones;
      NothingOrdered();
      listed := [];
      var left := entries.Keys;
      while left != {}
        invariant left <= entries.Keys && RevisionOrdered(listed) && DistinctPaths(listed)
        invariant forall x :: x in listed <==>
          x.key in entries && x.key !in left && prefix.Covers(x.key) && entries[x.key] == x
        decreases left
      {
        var path :| path in left;
        LiveEntryIsLogged(log, path);
        if prefix.Covers(path) {
          InsertHas(entries[path], listed);
          InsertOrdered(entries[path], listed);
          InsertDistinct(entries[path], listed);
          listed := InsertByRevision(entries[path], listed);
        }
        left := left - {path};
      }
      ListedIsListing(State(), prefix, listed);
    }

    method Create(key: Key, value: Value) returns (r: Result<Entry, StorageError>)
      requires State().Valid()
      modifies this
      ensures (State(), r) == old(State()).Create(key, value) && State().Valid()
    {
      ApplyKeepsValid(State(), DoCreate(key, value));
      if !key.IsValid() { return Err(InvalidKey); }
      var path := key.AsPath();
      if path in entries { return Err(AlreadyExists); }
      revision := revision + 1;
      var entry := Entry(path, value, revision, revision, 1);
      entries := entries[path := entry];
      log := log + [Put(entry)];
      r := Ok(entry);
    }

    method Update(key: Key, value: Value, ifRevision: Option<nat>) returns (r: Result<Entry, StorageError>)
      requires State().Valid()
      modifies this
      ensures (State(), r) == old(State()).Update(key, value, ifRevision) && State().Valid()
    {
      ApplyKeepsValid(State(), DoUpdate(key, value, ifRevision));
      var path := key.AsPath();
      if path !in entries { return Err(NotFound); }
      var cur := entries[path];
      if ifRevision.Some? && cur.modRevision != ifRevision.value { return Err(Conflict); }
      revision := revision + 1;
      var entry := Entry(path, value, cur.createRevision, revision, cur.version + 1);
      entries := entries[path := entry];
      log := log + [Put(entry)];
      r := Ok(entry);
    }

    method Remove(key: Key, ifRevision: Option<nat>) returns (r: Result<Option<Entry>, StorageError>)
      requires State().Valid()
      modifies this
      ensures (State(), r) == old(State()).Remove(key, ifRevision) && State().Valid()
    {
      ApplyKeepsValid(State(), DoRemove(key, ifRevision));
      var path := key.AsPath();
      if path !in entries { return Ok(None); }
      var cur := entries[path];
      if ifRevision.Some? && cur.modRevision != ifRevision.value { return Err(Conflict); }
      revision := revision + 1;
      entries := entries - {path};
      log := log + [Delete(path, revision, Some(cur))];
      r := Ok(Some(cur));
    }
  }
}
