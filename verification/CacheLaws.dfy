// What the informer's cache holds after LIST at one revision and WATCH up to
// another, key by key, for every log of writes.
module CacheLaws {
  import opened Options
  import opened Json
  import opened Text
  import opened Storage
  import opened Objects
  import opened Paths
  import opened Informer
  import ControlLoop

  // --- Two projections of one entry ------------------------------------------------------

  /** What LIST shows of an entry. */
  function ListValue(prefix: KeyPrefix, e: Entry): Value {
    Project(e, NamespaceOfPath(e.key, prefix.group))
  }

  /** What a put event leaves in the cache. */
  function EventValue(prefix: KeyPrefix, e: Entry): Value {
    Revised(Normalize(prefix, Put(e)).entry)
  }

  lemma MetaOf(v: Value, key: string)
    ensures StrAt(v, ["metadata", key]) ==
      if HasMeta(v) && v.Get("metadata").Some? then
        var meta := v.fields["metadata"].fields;
        if key in meta then meta[key].AsStr() else None
      else None
  {
    TwoSteps(v, "metadata");
  }

  /** SetMeta on two different members commutes. */
  lemma SetMetaCommutes(v: Value, a: string, x: string, b: string, y: string)
    requires a != b
    ensures SetMeta(SetMeta(v, a, x), b, y) == SetMeta(SetMeta(v, b, y), a, x)
  {
    if HasMeta(v) {
      var meta := if "metadata" in v.fields then v.fields["metadata"].fields else map[];
      assert meta[a := String(x)][b := String(y)] == meta[b := String(y)][a := String(x)];
      var m1, m2 := Object(meta[a := String(x)]), Object(meta[b := String(y)]);
      var m := Object(meta[a := String(x)][b := String(y)]);
      assert v.fields["metadata" := m1]["metadata" := m] == v.fields["metadata" := m];
      assert v.fields["metadata" := m2]["metadata" := m] == v.fields["metadata" := m];
    }
  }

  /** Setting a member to what it already is. */
  lemma SetMetaSame(v: Value, key: string, value: string)
    requires StrAt(v, ["metadata", key]) == Some(value)
    ensures SetMeta(v, key, value) == v
  {
    MetaOf(v, key);
    var meta := v.fields["metadata"].fields;
    assert meta[key := String(value)] == meta;
    assert v.fields["metadata" := Object(meta)] == v.fields;
  }

  /**
   * LIST and WATCH project an entry onto the same value exactly when the body
   * names no namespace or its path's: LIST overwrites the namespace, an event
   * only fills in a missing one.
   */
  lemma ProjectionsAgree(prefix: KeyPrefix, e: Entry)
    requires NamespaceOfPath(e.key, prefix.group).Some?
    ensures EventValue(prefix, e) == ListValue(prefix, e)
       <==> NamespaceIn(e.value) in ["", NamespaceOfPath(e.key, prefix.group).value]
  {
    hide NamespaceOfPath;
    var ns := NamespaceOfPath(e.key, prefix.group).value;
    var rv := Decimal(e.modRevision);
    SetMetaCommutes(e.value, "resourceVersion", rv, "namespace", ns);
    MetaOf(e.value, "namespace");
    if NamespaceIn(e.value) == "" {
      assert EventValue(prefix, e) == SetMeta(SetMeta(e.value, "namespace", ns), "resourceVersion", rv);
    } else {
      SetMetaGet(e.value, "resourceVersion", rv);
      assert EventValue(prefix, e) == SetMeta(e.value, "resourceVersion", rv);
      if NamespaceIn(e.value) == ns {
        SetMetaSame(SetMeta(e.value, "resourceVersion", rv), "namespace", ns);
      } else {
        SetMetaGet(SetMeta(e.value, "resourceVersion", rv), "namespace", ns);
      }
    }
  }

  // --- Well-named entries -----------------------------------------------------------------

  /** The body under `path` carries the name of its path, and no other namespace. */
  ghost predicate Names(prefix: KeyPrefix, path: string, v: Value, ns: string, name: string) {
    && IsSegment(ns) && IsSegment(name) && path == Key(prefix.group, prefix.resource, ns, name).AsPath()
    && StrAt(v, ["metadata", "name"]) == Some(name) && NamespaceIn(v) in ["", ns]
  }

  ghost predicate WellNamed(prefix: KeyPrefix, path: string, v: Value) {
    exists ns, name :: Names(prefix, path, v, ns, name)
  }

  ghost predicate WellNamedLog(prefix: KeyPrefix, log: seq<Event>) {
    forall i :: 0 <= i < |log| && log[i].Put? && prefix.Covers(log[i].Path()) ==>
      WellNamed(prefix, log[i].Path(), log[i].entry.value)
  }

  /** The path of a cache key. */
  function PathOf(prefix: KeyPrefix, k: string): string {
    prefix.Base() + "/" + k
  }

  lemma PathOfName(prefix: KeyPrefix, path: string, v: Value, ns: string, name: string)
    requires prefix.WellFormed() && Names(prefix, path, v, ns, name)
    ensures path == PathOf(prefix, ns + "/" + name)
    ensures NamespaceOfPath(path, prefix.group) == Some(ns) && KeyFromPath(path) == ns + "/" + name
    ensures forall k :: path == PathOf(prefix, k) <==> k == ns + "/" + name
  {
    hide NamespaceOfPath, KeyFromPath;
    PathComesApart(Key(prefix.group, prefix.resource, ns, name));
    assert path == PathOf(prefix, ns + "/" + name);
    var base := prefix.Base() + "/";
    forall k | path == PathOf(prefix, k) ensures k == ns + "/" + name {
      assert PathOf(prefix, k)[|base|..] == k && path[|base|..] == ns + "/" + name;
    }
  }

  /** LIST and WATCH leave one value under one key, `ns/name`. */
  lemma NamedPut(prefix: KeyPrefix, e: Entry, ns: string, name: string)
    requires prefix.WellFormed() && Names(prefix, e.key, e.value, ns, name)
    ensures ObjectKey(ListValue(prefix, e)) == ns + "/" + name
    ensures EventValue(prefix, e) == ListValue(prefix, e)
    ensures ListValue(prefix, e) == Project(e, Some(ns))
  {
    PathOfName(prefix, e.key, e.value, ns, name);
    hide NamespaceOfPath, KeyFromPath, EventValue;
    ProjectionsAgree(prefix, e);
    MetaOf(e.value, "name");
    var rv := Decimal(e.modRevision);
    SetMetaGet(e.value, "resourceVersion", rv);
    SetMetaGet(SetMeta(e.value, "resourceVersion", rv), "namespace", ns);
  }

  /** A deletion is keyed by the stored body, where nobody filled in the namespace. */
  lemma NamedDelete(prefix: KeyPrefix, ev: Event, ns: string, name: string)
    requires prefix.WellFormed() && ev.Delete? && ev.prev.Some? && Names(prefix, ev.key, ev.prev.value.value, ns, name)
    ensures EventKey(Normalize(prefix, ev)) ==
      if NamespaceIn(ev.prev.value.value) == "" then name else ns + "/" + name
  {
  }

  // --- The cache, revision by revision ---------------------------------------------------------

  function ListValues(prefix: KeyPrefix, listed: seq<Entry>): seq<Value> {
    seq(|listed|, i requires 0 <= i < |listed| => ListValue(prefix, listed[i]))
  }

  /** The events of the collection with revisions from `start` to `upTo`, in order. */
  function Replayed(prefix: KeyPrefix, log: seq<Event>, start: nat, upTo: nat): seq<Event>
    requires 1 <= start && upTo <= |log|
    decreases upTo
  {
    if upTo < start then [] else
      Replayed(prefix, log, start, upTo - 1) + if prefix.Covers(log[upTo - 1].Path()) then [log[upTo - 1]] else []
  }

  /** The cache after LIST and the events up to revision `upTo`. */
  function CacheAt(prefix: KeyPrefix, log: seq<Event>, listed: seq<Entry>, upTo: nat): map<string, Value>
    requires upTo <= |log|
  {
    var values := ListValues(prefix, listed);
    AppliedAll(prefix, FromPairs(Keyed(values)), Replayed(prefix, log, Start(values), upTo))
  }

  /** The store's view of a cache key. */
  function ViewAt(prefix: KeyPrefix, entries: map<string, Entry>, k: string): Option<Value> {
    var path := PathOf(prefix, k);
    if path in entries && prefix.Covers(path) then Some(ListValue(prefix, entries[path])) else None
  }

  lemma CacheStep(prefix: KeyPrefix, log: seq<Event>, items: map<string, Value>, start: nat, upTo: nat)
    requires 1 <= start <= upTo <= |log|
    ensures
      var before := AppliedAll(prefix, items, Replayed(prefix, log, start, upTo - 1));
      AppliedAll(prefix, items, Replayed(prefix, log, start, upTo)) ==
      if prefix.Covers(log[upTo - 1].Path()) then Applied(before, Normalize(prefix, log[upTo - 1])) else before
  {
    var evs := Replayed(prefix, log, start, upTo - 1);
    var ev := log[upTo - 1];
    assert (evs + [ev])[..|evs|] == evs;
    assert evs + [] == evs;
  }

  lemma CacheStart(prefix: KeyPrefix, log: seq<Event>, items: map<string, Value>, start: nat, upTo: nat)
    requires 1 <= start && upTo < start && upTo <= |log|
    ensures AppliedAll(prefix, items, Replayed(prefix, log, start, upTo)) == items
  {
  }

  /** What becomes of one cache entry as the events of its path pass by. */
  ghost function Fate(prefix: KeyPrefix, log: seq<Event>, start: nat, upTo: nat, seeded: Option<Value>,
          path: string): Option<Value>
    requires 1 <= start && upTo <= |log|
    decreases upTo
  {
    if upTo < start then seeded else
      var before := Fate(prefix, log, start, upTo - 1, seeded, path);
      var ev := log[upTo - 1];
      if ev.Path() != path || !prefix.Covers(path) then before else
        match ev
        case Put(e) => Some(ListValue(prefix, e))
        case Delete(_, _, prev) => if prev.Some? && NamespaceIn(prev.value.value) == "" then before else None
  }

  /** One event moves only its own key, and only there. */
  lemma FateStep(prefix: KeyPrefix, log: seq<Event>, at: nat, before: map<string, Value>, k: string)
    requires prefix.WellFormed() && LogOk(prefix, log) && at < |log| && '/' in k && prefix.Covers(log[at].Path())
    ensures
      var ev := log[at];
      Lookup(Applied(before, Normalize(prefix, ev)), k) ==
      if ev.Path() != PathOf(prefix, k) then Lookup(before, k) else
      match ev
      case Put(e) => Some(ListValue(prefix, e))
      case Delete(_, _, prev) => if prev.Some? && NamespaceIn(prev.value.value) == "" then Lookup(before, k) else None
  {
    hide LogOk, PathOf, Applied, Normalize, ListValue, NamespaceIn;
    var ev := log[at];
    var ns, name := EventNames(prefix, log, at);
    if ev.Put? {
      PutStep(prefix, ev.entry, ns, name, before, k);
    } else {
      DeleteStep(prefix, ev, ns, name, before, k);
    }
  }

  lemma EventNames(prefix: KeyPrefix, log: seq<Event>, at: nat) returns (ns: string, name: string)
    requires LogOk(prefix, log) && at < |log| && prefix.Covers(log[at].Path())
    ensures log[at].Delete? ==> log[at].prev.Some?
    ensures Names(prefix, log[at].Path(), Body(log[at]), ns, name)
  {
    hide Names;
    assert WellNamed(prefix, log[at].Path(), Body(log[at])) by {
      if log[at].Delete? { var e := PrevOf(prefix, log, at); }
    }
    ns, name :| Names(prefix, log[at].Path(), Body(log[at]), ns, name);
  }

  ghost function Body(ev: Event): Value {
    match ev
    case Put(e) => e.value
    case Delete(_, _, prev) => if prev.Some? then prev.value.value else Null
  }

  lemma PutStep(prefix: KeyPrefix, e: Entry, ns: string, name: string, before: map<string, Value>, k: string)
    requires prefix.WellFormed() && Names(prefix, e.key, e.value, ns, name)
    ensures Lookup(Applied(before, Normalize(prefix, Put(e))), k) ==
      if e.key != PathOf(prefix, k) then Lookup(before, k) else Some(ListValue(prefix, e))
  {
    PathOfName(prefix, e.key, e.value, ns, name);
    NamedPut(prefix, e, ns, name);
    hide Names, PathOf, NamespaceOfPath, KeyFromPath, ObjectKey, Revised, Project;
    assert Normalize(prefix, Put(e)).Put?;
  }

  lemma DeleteStep(prefix: KeyPrefix, ev: Event, ns: string, name: string, before: map<string, Value>, k: string)
    requires prefix.WellFormed() && ev.Delete? && ev.prev.Some? && Names(prefix, ev.key, ev.prev.value.value, ns, name)
    requires '/' in k
    ensures Lookup(Applied(before, Normalize(prefix, ev)), k) ==
      if ev.key != PathOf(prefix, k) || NamespaceIn(ev.prev.value.value) == "" then Lookup(before, k) else None
  {
    PathOfName(prefix, ev.key, ev.prev.value.value, ns, name);
    NamedDelete(prefix, ev, ns, name);
    assert '/' !in name;
    hide Names, PathOf, NamespaceOfPath, KeyFromPath, ObjectKey, EventKey, NamespaceIn;
    assert Normalize(prefix, ev) == ev;
  }

  /** A log of a valid store whose covered bodies are well named. */
  ghost predicate LogOk(prefix: KeyPrefix, log: seq<Event>) {
    && (forall i :: 0 <= i < |log| ==> log[i].Revision() == i + 1)
    && Tombstones(log) && WellNamedLog(prefix, log)
  }

  /** The entry a deletion removed: the last put of its path. */
  ghost function PrevOf(prefix: KeyPrefix, log: seq<Event>, at: nat): (e: Entry)
    requires LogOk(prefix, log) && at < |log| && log[at].Delete?
    ensures log[at].prev == Some(e) && e.key == log[at].key
    ensures 1 <= e.modRevision <= at && log[e.modRevision - 1] == Put(e)
    ensures forall i :: e.modRevision <= i < at ==> log[i].Path() != e.key
    ensures prefix.Covers(e.key) ==> WellNamed(prefix, e.key, e.value)
  {
    LiveEntryIsLogged(log[..at], log[at].key);
    var e := log[at].prev.value;
    assert forall i :: 0 <= i < at ==> log[..at][i] == log[i];
    e
  }

  /** The cache entry under `k` shares the fate of its path. */
  lemma {:induction false} CacheIsFate(prefix: KeyPrefix, log: seq<Event>, items: map<string, Value>, start: nat,
          upTo: nat, k: string)
    requires prefix.WellFormed() && LogOk(prefix, log) && 1 <= start && upTo <= |log| && '/' in k
    requires prefix.Covers(PathOf(prefix, k))
    ensures Lookup(AppliedAll(prefix, items, Replayed(prefix, log, start, upTo)), k)
         == Fate(prefix, log, start, upTo, Lookup(items, k), PathOf(prefix, k))
    decreases upTo
  {
    hide LogOk, Applied, Normalize, ListValue, PathOf, NamespaceIn, AppliedAll, Replayed, Lookup;
    if upTo < start {
      CacheStart(prefix, log, items, start, upTo);
    } else {
      CacheIsFate(prefix, log, items, start, upTo - 1, k);
      CacheStep(prefix, log, items, start, upTo);
      if prefix.Covers(log[upTo - 1].Path()) {
        FateStep(prefix, log, upTo - 1, AppliedAll(prefix, items, Replayed(prefix, log, start, upTo - 1)), k);
      }
    }
  }

  /** A key outside the collection never gets into the cache. */
  lemma {:induction false} ForeignKeyStaysOut(prefix: KeyPrefix, log: seq<Event>, items: map<string, Value>,
          start: nat, upTo: nat, k: string)
    requires prefix.WellFormed() && LogOk(prefix, log) && 1 <= start && upTo <= |log| && k !in items
    requires !prefix.Covers(PathOf(prefix, k)) || '/' !in k
    ensures k !in AppliedAll(prefix, items, Replayed(prefix, log, start, upTo))
    decreases upTo
  {
    hide LogOk, Applied, Normalize, ListValue, NamespaceIn, Names, AppliedAll, Replayed;
    if upTo < start {
      CacheStart(prefix, log, items, start, upTo);
    } else {
      ForeignKeyStaysOut(prefix, log, items, start, upTo - 1, k);
      CacheStep(prefix, log, items, start, upTo);
      var ev := log[upTo - 1];
      if prefix.Covers(ev.Path()) {
        var ns, name := EventNames(prefix, log, upTo - 1);
        PathOfName(prefix, ev.Path(), Body(ev), ns, name);
        HasSlash(ns, name);
        ForeignStep(prefix, ev, ns, name, AppliedAll(prefix, items, Replayed(prefix, log, start, upTo - 1)), k);
      }
    }
  }

  lemma ForeignStep(prefix: KeyPrefix, ev: Event, ns: string, name: string, before: map<string, Value>, k: string)
    requires prefix.WellFormed() && Names(prefix, ev.Path(), Body(ev), ns, name) && k !in before && k != ns + "/" + name
    ensures k !in Applied(before, Normalize(prefix, ev))
  {
    if ev.Put? {
      PutStep(prefix, ev.entry, ns, name, before, k);
      PathOfName(prefix, ev.Path(), Body(ev), ns, name);
    }
  }

  // --- The seed --------------------------------------------------------------------------------

  lemma {:induction false} FromPairsAt(pairs: seq<(string, Value)>)
    requires forall i, j :: 0 <= i < j < |pairs| ==> pairs[i].0 != pairs[j].0
    ensures forall i :: 0 <= i < |pairs| ==>
      pairs[i].0 in FromPairs(pairs) && FromPairs(pairs)[pairs[i].0] == pairs[i].1
    ensures forall k :: k in FromPairs(pairs) ==> exists i :: 0 <= i < |pairs| && pairs[i].0 == k
  {
    if pairs != [] {
      var front, last := pairs[..|pairs| - 1], pairs[|pairs| - 1];
      FromPairsAt(front);
      assert forall i :: 0 <= i < |front| ==> pairs[i] == front[i];
      assert FromPairs(pairs) == FromPairs(front)[last.0 := last.1];
      assert pairs[|pairs| - 1].0 == last.0;
      forall k | k in FromPairs(pairs) ensures exists i :: 0 <= i < |pairs| && pairs[i].0 == k {
        if k != last.0 {
          var i :| 0 <= i < |front| && front[i].0 == k;
          assert pairs[i].0 == k;
        }
      }
    }
  }

  /** The entries of a well-named log are well named. */
  lemma EntryIsNamed(prefix: KeyPrefix, log: seq<Event>, upTo: nat, path: string) returns (ns: string, name: string)
    requires LogOk(prefix, log) && upTo <= |log| && path in Replay(log[..upTo]) && prefix.Covers(path)
    ensures Names(prefix, path, Replay(log[..upTo])[path].value, ns, name) && Replay(log[..upTo])[path].key == path
  {
    hide Names;
    var e := Replay(log[..upTo])[path];
    LiveEntryIsLogged(log[..upTo], path);
    assert log[e.modRevision - 1] == Put(e);
    assert WellNamed(prefix, path, e.value);
    ns, name :| Names(prefix, path, e.value, ns, name);
  }

  lemma ListedKey(prefix: KeyPrefix, log: seq<Event>, upTo: nat, listed: seq<Entry>, i: nat) returns (k: string)
    requires prefix.WellFormed() && LogOk(prefix, log) && upTo <= |log|
    requires IsListing(prefix, Replay(log[..upTo]), listed) && i < |listed|
    ensures Keyed(ListValues(prefix, listed))[i] == (k, ListValue(prefix, listed[i]))
    ensures '/' in k && listed[i].key == PathOf(prefix, k) && forall j :: listed[i].key == PathOf(prefix, j) <==> j == k
  {
    hide Names, ObjectKey, PathOf, ListValue, NamespaceOfPath, KeyFromPath, LogOk;
    var e := listed[i];
    var ns, name := EntryIsNamed(prefix, log, upTo, e.key);
    k := ns + "/" + name;
    assert k[|ns|] == '/';
    PathOfName(prefix, e.key, e.value, ns, name);
    NamedPut(prefix, e, ns, name);
  }

  /** LIST seeds the cache with exactly the store's view. */
  lemma SeedIsView(prefix: KeyPrefix, log: seq<Event>, upTo: nat, listed: seq<Entry>, k: string)
    requires prefix.WellFormed() && LogOk(prefix, log) && upTo <= |log|
    requires IsListing(prefix, Replay(log[..upTo]), listed)
    ensures Lookup(FromPairs(Keyed(ListValues(prefix, listed))), k) == ViewAt(prefix, Replay(log[..upTo]), k)
    ensures '/' !in k ==> k !in FromPairs(Keyed(ListValues(prefix, listed)))
  {
    hide LogOk, ObjectKey, ListValue, PathOf;
    var entries := Replay(log[..upTo]);
    var pairs := Keyed(ListValues(prefix, listed));
    forall i, j | 0 <= i < j < |pairs| ensures pairs[i].0 != pairs[j].0 {
      var a := ListedKey(prefix, log, upTo, listed, i);
      var b := ListedKey(prefix, log, upTo, listed, j);
    }
    FromPairsAt(pairs);
    assert forall i :: 0 <= i < |listed| ==> pairs[i].0 in FromPairs(pairs);
    if k in FromPairs(pairs) {
      var i :| 0 <= i < |pairs| && pairs[i].0 == k;
      var a := ListedKey(prefix, log, upTo, listed, i);
    } else if PathOf(prefix, k) in entries && prefix.Covers(PathOf(prefix, k)) {
      var i :| 0 <= i < |listed| && listed[i].key == PathOf(prefix, k);
      var a := ListedKey(prefix, log, upTo, listed, i);
    }
  }

  /** The replay starts no later than one past the listed revision. */
  lemma {:induction false} MaxRevisionBound(values: seq<Value>, bound: nat)
    requires forall i :: 0 <= i < |values| ==> RevisionOf(values[i]) <= bound
    ensures MaxRevision(values) <= bound
  {
    if values != [] {
      MaxRevisionBound(values[..|values| - 1], bound);
    }
  }

  lemma StartBound(prefix: KeyPrefix, log: seq<Event>, upTo: nat, listed: seq<Entry>)
    requires prefix.WellFormed() && LogOk(prefix, log) && upTo <= |log| < U64_LIMIT
    requires IsListing(prefix, Replay(log[..upTo]), listed)
    ensures 1 <= Start(ListValues(prefix, listed)) <= upTo + 1
  {
    hide ObjectKey, ResourceVersion, Project, NamespaceOfPath, Names, SetMeta;
    var values := ListValues(prefix, listed);
    forall i | 0 <= i < |values| ensures RevisionOf(values[i]) <= upTo {
      var e := listed[i];
      LiveEntryIsLogged(log[..upTo], e.key);
      var ns, name := EntryIsNamed(prefix, log, upTo, e.key);
      NamedHasMeta(prefix, e, ns, name);
      ProjectCarriesRevision(e, NamespaceOfPath(e.key, prefix.group));
    }
    MaxRevisionBound(values, upTo);
  }

  lemma NamedHasMeta(prefix: KeyPrefix, e: Entry, ns: string, name: string)
    requires Names(prefix, e.key, e.value, ns, name)
    ensures HasMeta(e.value)
  {
  }

  /** A covered entry of the log is listed, and cached, with its own revision. */
  lemma NamedRevision(prefix: KeyPrefix, log: seq<Event>, r: nat)
    requires LogOk(prefix, log) && 1 <= r <= |log| < U64_LIMIT && log[r - 1].Put? && prefix.Covers(log[r - 1].Path())
    ensures RevisionOf(ListValue(prefix, log[r - 1].entry)) == r
  {
    hide ObjectKey, ResourceVersion, Project, NamespaceOfPath, Names, SetMeta;
    var e := log[r - 1].entry;
    assert log[r - 1].Revision() == r;
    var ns, name := EventNames(prefix, log, r - 1);
    NamedHasMeta(prefix, e, ns, name);
    ProjectCarriesRevision(e, NamespaceOfPath(e.key, prefix.group));
  }

  /** No listed object is newer than the first revision replayed, which is 1 or that of a listed object. */
  lemma StartIsNewest(prefix: KeyPrefix, log: seq<Event>, listedAt: nat, listed: seq<Entry>)
    requires prefix.WellFormed() && LogOk(prefix, log) && listedAt <= |log| < U64_LIMIT
    requires IsListing(prefix, Replay(log[..listedAt]), listed)
    ensures
      var start := Start(ListValues(prefix, listed));
      && (forall i :: 0 <= i < |listed| ==> listed[i].modRevision <= start)
      && (start == 1 || exists i :: 0 <= i < |listed| && listed[i].modRevision == start)
  {
    hide ListValue, LogOk, RevisionOf, Start, Replay;
    var values := ListValues(prefix, listed);
    StartIs(values);
    forall i | 0 <= i < |listed| ensures RevisionOf(values[i]) == listed[i].modRevision {
      ListedRevision(prefix, log, listedAt, listed[i].key);
    }
  }

  lemma ListedRevision(prefix: KeyPrefix, log: seq<Event>, listedAt: nat, path: string)
    requires LogOk(prefix, log) && listedAt <= |log| < U64_LIMIT
    requires path in Replay(log[..listedAt]) && prefix.Covers(path)
    ensures RevisionOf(ListValue(prefix, Replay(log[..listedAt])[path])) == Replay(log[..listedAt])[path].modRevision
  {
    hide ListValue, RevisionOf;
    LiveEntryIsLogged(log[..listedAt], path);
    NamedRevision(prefix, log, Replay(log[..listedAt])[path].modRevision);
  }

  // --- Convergence, and where it stops ------------------------------------------------------------

  /** The last event of `path` up to `upTo` has revision `d`. */
  ghost predicate LastTouch(log: seq<Event>, d: nat, upTo: nat, path: string) {
    && 1 <= d <= upTo <= |log| && log[d - 1].Path() == path
    && forall i :: d <= i < upTo ==> log[i].Path() != path
  }

  /** Events of other paths change neither the fate nor the entry of this one. */
  lemma {:induction false} Untouched(prefix: KeyPrefix, log: seq<Event>, start: nat, m: nat, n: nat,
          seeded: Option<Value>, path: string)
    requires 1 <= start && m <= n <= |log|
    requires forall i :: m <= i < n ==> log[i].Path() != path
    ensures Fate(prefix, log, start, n, seeded, path) == Fate(prefix, log, start, m, seeded, path)
    ensures (path in Replay(log[..n])) == (path in Replay(log[..m]))
    ensures path in Replay(log[..n]) ==> Replay(log[..n])[path] == Replay(log[..m])[path]
    decreases n
  {
    if m < n {
      Untouched(prefix, log, start, m, n - 1, seeded, path);
      assert log[..n][..n - 1] == log[..n - 1];
    }
  }

  /** From the listed revision on, a live object is cached with its current value. */
  lemma {:induction false} LiveIsCached(prefix: KeyPrefix, log: seq<Event>, start: nat, listedAt: nat, upTo: nat,
          path: string, seeded: Option<Value>)
    requires LogOk(prefix, log) && 1 <= start <= listedAt + 1 && listedAt <= upTo <= |log| && prefix.Covers(path)
    requires path in Replay(log[..listedAt]) ==> seeded == Some(ListValue(prefix, Replay(log[..listedAt])[path]))
    requires path in Replay(log[..upTo])
    ensures Fate(prefix, log, start, upTo, seeded, path) == Some(ListValue(prefix, Replay(log[..upTo])[path]))
  {
    hide ListValue, LogOk, Replay, Fate;
    var e := Replay(log[..upTo])[path];
    var q := LastPut(prefix, log, upTo, path);
    Untouched(prefix, log, start, q, upTo, seeded, path);
    FateOfPut(prefix, log, start, q, path, seeded);
    if q < start {
      Untouched(prefix, log, start, listedAt, upTo, seeded, path);
    }
  }

  lemma LastPut(prefix: KeyPrefix, log: seq<Event>, upTo: nat, path: string) returns (q: nat)
    requires LogOk(prefix, log) && upTo <= |log| && path in Replay(log[..upTo])
    ensures 1 <= q <= upTo && log[q - 1] == Put(Replay(log[..upTo])[path]) && log[q - 1].Path() == path
    ensures forall i :: q <= i < upTo ==> log[i].Path() != path
  {
    LiveEntryIsLogged(log[..upTo], path);
    q := Replay(log[..upTo])[path].modRevision;
    assert forall i :: 0 <= i < upTo ==> log[..upTo][i] == log[i];
  }

  lemma FateOfPut(prefix: KeyPrefix, log: seq<Event>, start: nat, q: nat, path: string, seeded: Option<Value>)
    requires 1 <= start && 1 <= q <= |log| && log[q - 1].Put? && log[q - 1].Path() == path && prefix.Covers(path)
    ensures Fate(prefix, log, start, q, seeded, path)
         == if q < start then seeded else Some(ListValue(prefix, log[q - 1].entry))
  {
  }

  ghost function Listed(prefix: KeyPrefix, entries: map<string, Entry>, path: string): Option<Value> {
    if path in entries then Some(ListValue(prefix, entries[path])) else None
  }

  /**
   * A deletion that goes unheard: its body named no namespace, so the watch
   * removed the bare name instead, and the cache did have the object, because
   * its last put was replayed or the deletion came after the LIST.
   */
  ghost predicate Unheard(prefix: KeyPrefix, log: seq<Event>, start: nat, listedAt: nat, upTo: nat, path: string) {
    exists d: nat :: UnheardAt(log, start, listedAt, upTo, path, d)
  }

  ghost predicate UnheardAt(log: seq<Event>, start: nat, listedAt: nat, upTo: nat, path: string, d: nat) {
    && start <= d && LastTouch(log, d, upTo, path) && log[d - 1].Delete?
    && log[d - 1].prev.Some? && NamespaceIn(log[d - 1].prev.value.value) == ""
    && (start <= log[d - 1].prev.value.modRevision || listedAt < d)
  }

  lemma {:induction false} FindTouch(log: seq<Event>, upTo: nat, path: string) returns (d: nat)
    requires upTo <= |log|
    ensures d == 0 ==> forall i :: 0 <= i < upTo ==> log[i].Path() != path
    ensures d > 0 ==> LastTouch(log, d, upTo, path)
  {
    if upTo == 0 {
      d := 0;
    } else if log[upTo - 1].Path() == path {
      d := upTo;
    } else {
      d := FindTouch(log, upTo - 1, path);
    }
  }

  /** What is left in the cache of an object that is gone. */
  lemma GoneIsForgotten(prefix: KeyPrefix, log: seq<Event>, start: nat, listedAt: nat, upTo: nat, path: string,
          seeded: Option<Value>)
    requires LogOk(prefix, log) && 1 <= start <= listedAt + 1 && listedAt <= upTo <= |log| && prefix.Covers(path)
    requires seeded == Listed(prefix, Replay(log[..listedAt]), path)
    requires path !in Replay(log[..upTo])
    ensures Fate(prefix, log, start, upTo, seeded, path) == None <==> !Unheard(prefix, log, start, listedAt, upTo, path)
  {
    hide ListValue, LogOk, NamespaceIn;
    var d := FindTouch(log, upTo, path);
    if d < start {
      Untouched(prefix, log, start, d, upTo, seeded, path);
      Untouched(prefix, log, start, listedAt, upTo, seeded, path) by { assert d <= listedAt; }
      assert forall t: nat :: UnheardAt(log, start, listedAt, upTo, path, t) ==> t == d;
    } else {
      Untouched(prefix, log, start, d, upTo, seeded, path);
      assert log[..d][..d - 1] == log[..d - 1];
      assert log[d - 1].Delete?;
      assert forall t: nat :: UnheardAt(log, start, listedAt, upTo, path, t) ==> t == d;
      assert Unheard(prefix, log, start, listedAt, upTo, path) <==> UnheardAt(log, start, listedAt, upTo, path, d);
      JustBefore(prefix, log, start, listedAt, upTo, path, seeded, d);
    }
  }

  /** What the cache held of an object when its deletion passed by. */
  lemma JustBefore(prefix: KeyPrefix, log: seq<Event>, start: nat, listedAt: nat, upTo: nat, path: string,
          seeded: Option<Value>, d: nat)
    requires LogOk(prefix, log) && 1 <= start <= listedAt + 1 && listedAt <= upTo <= |log| && prefix.Covers(path)
    requires seeded == Listed(prefix, Replay(log[..listedAt]), path)
    requires start <= d && LastTouch(log, d, upTo, path) && log[d - 1].Delete?
    ensures log[d - 1].prev.Some?
    ensures Fate(prefix, log, start, d - 1, seeded, path).Some?
       <==> start <= log[d - 1].prev.value.modRevision || listedAt < d
  {
    hide ListValue, NamespaceIn, LogOk, Replay, Tombstones;
    var e := PrevOf(prefix, log, d - 1);
    var before := Fate(prefix, log, start, d - 1, seeded, path);
    Untouched(prefix, log, start, e.modRevision, d - 1, seeded, path);
    if start <= e.modRevision {
      assert before == Some(ListValue(prefix, e));
    } else if listedAt < d {
      WasLive(prefix, log, d);
      LiveIsCached(prefix, log, start, listedAt, d - 1, path, seeded);
    } else {
      WasLive(prefix, log, d);
      Untouched(prefix, log, start, d, listedAt, seeded, path);
      assert before == seeded == None;
    }
  }

  lemma WasLive(prefix: KeyPrefix, log: seq<Event>, d: nat)
    requires LogOk(prefix, log) && 1 <= d <= |log| && log[d - 1].Delete?
    ensures log[d - 1].key in Replay(log[..d - 1]) && log[d - 1].key !in Replay(log[..d])
  {
  }

  /**
   * Cache convergence: after LIST at one revision and the inclusive replay up
   * to any later one, the cache agrees with the store at every key, except
   * exactly where the object was deleted and the deletion went unheard.
   */
  lemma Converges(prefix: KeyPrefix, log: seq<Event>, listedAt: nat, upTo: nat, listed: seq<Entry>, k: string)
    requires prefix.WellFormed() && LogOk(prefix, log) && listedAt <= upTo <= |log| < U64_LIMIT
    requires IsListing(prefix, Replay(log[..listedAt]), listed)
    ensures ViewAt(prefix, Replay(log[..upTo]), k).Some? ==>
      Lookup(CacheAt(prefix, log, listed, upTo), k) == ViewAt(prefix, Replay(log[..upTo]), k)
    ensures
      var start := Start(ListValues(prefix, listed));
      Lookup(CacheAt(prefix, log, listed, upTo), k) == ViewAt(prefix, Replay(log[..upTo]), k)
      <==> !(PathOf(prefix, k) !in Replay(log[..upTo]) && prefix.Covers(PathOf(prefix, k))
             && Unheard(prefix, log, start, listedAt, upTo, PathOf(prefix, k)))
  {
    hide LogOk, IsListing, ListValue, PathOf, Unheard;
    var start := Start(ListValues(prefix, listed));
    var path := PathOf(prefix, k);
    var items := FromPairs(Keyed(ListValues(prefix, listed)));
    StartBound(prefix, log, listedAt, listed);
    SeedIsView(prefix, log, listedAt, listed, k);
    if !prefix.Covers(path) {
      ForeignKeyStaysOut(prefix, log, items, start, upTo, k);
    } else if '/' !in k {
      ForeignKeyStaysOut(prefix, log, items, start, upTo, k);
      BareIsAbsent(prefix, log, start, listedAt, upTo, k);
    } else {
      CacheIsFate(prefix, log, items, start, upTo, k);
      if path in Replay(log[..upTo]) {
        LiveIsCached(prefix, log, start, listedAt, upTo, path, Lookup(items, k));
      } else {
        GoneIsForgotten(prefix, log, start, listedAt, upTo, path, Lookup(items, k));
      }
    }
  }

  /** No object of a well-named collection lives under a bare key. */
  lemma BareIsAbsent(prefix: KeyPrefix, log: seq<Event>, start: nat, listedAt: nat, upTo: nat, k: string)
    requires prefix.WellFormed() && LogOk(prefix, log) && upTo <= |log| && '/' !in k && prefix.Covers(PathOf(prefix, k))
    ensures PathOf(prefix, k) !in Replay(log[..upTo])
    ensures !Unheard(prefix, log, start, listedAt, upTo, PathOf(prefix, k))
  {
    hide LogOk, Names, NamespaceOfPath, KeyFromPath, NamespaceIn;
    var path := PathOf(prefix, k);
    if path in Replay(log[..upTo]) {
      var ns, name := EntryIsNamed(prefix, log, upTo, path);
      HasSlash(ns, name);
      PathOfName(prefix, path, Replay(log[..upTo])[path].value, ns, name);
    }
    if d: nat :| UnheardAt(log, start, listedAt, upTo, path, d) {
      var ns, name := EventNames(prefix, log, d - 1);
      HasSlash(ns, name);
      PathOfName(prefix, path, Body(log[d - 1]), ns, name);
    }
  }

  lemma HasSlash(ns: string, name: string)
    ensures '/' in ns + "/" + name
  {
  }

  /** Once every deleted body of the collection names its namespace, cache and store agree. */
  lemma NamespacedConverges(prefix: KeyPrefix, log: seq<Event>, listedAt: nat, upTo: nat, listed: seq<Entry>, k: string)
    requires prefix.WellFormed() && LogOk(prefix, log) && listedAt <= upTo <= |log| < U64_LIMIT
    requires IsListing(prefix, Replay(log[..listedAt]), listed)
    requires forall i :: 0 <= i < upTo && log[i].Delete? && prefix.Covers(log[i].key) ==>
      NamespaceIn(Body(log[i])) != ""
    ensures Lookup(CacheAt(prefix, log, listed, upTo), k) == ViewAt(prefix, Replay(log[..upTo]), k)
  {
    Converges(prefix, log, listedAt, upTo, listed, k);
  }

  /**
   * While the replay is still catching up with the LIST, a key shows the store
   * at the revision replayed if one of its events was replayed, and the store at
   * the listed revision if not.
   */
  lemma WhileReplaying(prefix: KeyPrefix, log: seq<Event>, listedAt: nat, upTo: nat, listed: seq<Entry>, k: string)
    requires prefix.WellFormed() && LogOk(prefix, log) && upTo <= listedAt <= |log| < U64_LIMIT
    requires IsListing(prefix, Replay(log[..listedAt]), listed) && '/' in k && prefix.Covers(PathOf(prefix, k))
    requires forall i :: 0 <= i < upTo && log[i].Delete? && prefix.Covers(log[i].key) ==>
      NamespaceIn(Body(log[i])) != ""
    ensures
      var start := Start(ListValues(prefix, listed));
      var touched := exists d: nat :: start <= d && LastTouch(log, d, upTo, PathOf(prefix, k));
      var at := if touched then upTo else listedAt;
      Lookup(CacheAt(prefix, log, listed, upTo), k) == ViewAt(prefix, Replay(log[..at]), k)
  {
    hide LogOk, IsListing, ListValue, PathOf, Body, NamespaceIn;
    var start := Start(ListValues(prefix, listed));
    var path := PathOf(prefix, k);
    var items := FromPairs(Keyed(ListValues(prefix, listed)));
    StartBound(prefix, log, listedAt, listed);
    SeedIsView(prefix, log, listedAt, listed, k);
    CacheIsFate(prefix, log, items, start, upTo, k);
    var d := FindTouch(log, upTo, path);
    Untouched(prefix, log, start, d, upTo, Lookup(items, k), path);
    if d >= start {
      assert LastTouch(log, d, upTo, path);
      TouchedFate(prefix, log, start, d, Lookup(items, k), path);
    } else {
      assert forall t: nat :: LastTouch(log, t, upTo, path) ==> t == d;
    }
  }

  lemma TouchedFate(prefix: KeyPrefix, log: seq<Event>, start: nat, d: nat, seeded: Option<Value>, path: string)
    requires 1 <= start <= d <= |log| && log[d - 1].Path() == path && prefix.Covers(path)
    requires log[d - 1].Delete? ==> NamespaceIn(Body(log[d - 1])) != ""
    ensures Fate(prefix, log, start, d, seeded, path)
         == if path in Replay(log[..d]) then Some(ListValue(prefix, Replay(log[..d])[path])) else None
  {
  }

  /**
   * So an object put and deleted between the replay's start and the LIST is
   * resurrected for a while: absent from the LIST, cached once its put is
   * replayed, gone again at the listed revision.
   */
  lemma Resurrected(prefix: KeyPrefix, log: seq<Event>, listedAt: nat, q: nat, listed: seq<Entry>, k: string)
    requires prefix.WellFormed() && LogOk(prefix, log) && 1 <= q <= listedAt <= |log| < U64_LIMIT
    requires IsListing(prefix, Replay(log[..listedAt]), listed) && '/' in k && prefix.Covers(PathOf(prefix, k))
    requires forall i :: 0 <= i < listedAt && log[i].Delete? && prefix.Covers(log[i].key) ==>
      NamespaceIn(Body(log[i])) != ""
    requires Start(ListValues(prefix, listed)) <= q && log[q - 1].Put? && log[q - 1].Path() == PathOf(prefix, k)
    requires PathOf(prefix, k) !in Replay(log[..listedAt])
    ensures k !in FromPairs(Keyed(ListValues(prefix, listed)))
    ensures Lookup(CacheAt(prefix, log, listed, q), k) == Some(ListValue(prefix, log[q - 1].entry))
    ensures k !in CacheAt(prefix, log, listed, listedAt)
  {
    hide LogOk, IsListing, ListValue, PathOf, Body, NamespaceIn, CacheAt;
    SeedIsView(prefix, log, listedAt, listed, k);
    WhileReplaying(prefix, log, listedAt, q, listed, k);
    NamespacedConverges(prefix, log, listedAt, listedAt, listed, k);
    assert LastTouch(log, q, q, PathOf(prefix, k));
    assert log[..q][..q - 1] == log[..q - 1];
  }

  // --- Nothing gets older ----------------------------------------------------------------------------

  /**
   * Until the replay has caught up with the LIST, a listed object is in the cache
   * just as it was listed: it is never dropped and never older.
   */
  lemma ListedStays(prefix: KeyPrefix, log: seq<Event>, listedAt: nat, upTo: nat, listed: seq<Entry>, k: string)
    requires prefix.WellFormed() && LogOk(prefix, log) && upTo <= listedAt <= |log| < U64_LIMIT
    requires IsListing(prefix, Replay(log[..listedAt]), listed) && '/' in k && prefix.Covers(PathOf(prefix, k))
    requires PathOf(prefix, k) in Replay(log[..listedAt])
    ensures Lookup(CacheAt(prefix, log, listed, upTo), k)
         == Some(ListValue(prefix, Replay(log[..listedAt])[PathOf(prefix, k)]))
  {
    hide LogOk, ListValue, PathOf, CacheAt, NamespaceIn, Replay, Start, FromPairs, Fate;
    var path := PathOf(prefix, k);
    SeedIsView(prefix, log, listedAt, listed, k);
    StartIsNewest(prefix, log, listedAt, listed);
    StartBound(prefix, log, listedAt, listed);
    CacheFate(prefix, log, listed, upTo, k);
    var i :| 0 <= i < |listed| && listed[i].key == path;
    var q := LastPut(prefix, log, listedAt, path);
    EntryIsItsPut(prefix, log, listedAt, path, q);
    FateUntil(prefix, log, Start(ListValues(prefix, listed)), q, upTo, path);
  }

  lemma EntryIsItsPut(prefix: KeyPrefix, log: seq<Event>, upTo: nat, path: string, q: nat)
    requires LogOk(prefix, log)
    requires 1 <= q <= upTo <= |log| && path in Replay(log[..upTo]) && log[q - 1] == Put(Replay(log[..upTo])[path])
    ensures Replay(log[..upTo])[path].modRevision == q
  {
    hide Replay;
    assert log[q - 1].Revision() == q;
  }

  /** A put replayed first or not at all leaves what was listed. */
  lemma FateUntil(prefix: KeyPrefix, log: seq<Event>, start: nat, q: nat, upTo: nat, path: string)
    requires 1 <= q <= start && q <= |log| && upTo <= |log| && log[q - 1].Put? && log[q - 1].Path() == path
    requires prefix.Covers(path) && forall i :: q <= i < upTo ==> log[i].Path() != path
    ensures
      var seeded := Some(ListValue(prefix, log[q - 1].entry));
      Fate(prefix, log, start, upTo, seeded, path) == seeded
  {
    hide ListValue, KeyPrefix.Covers;
    var seeded := Some(ListValue(prefix, log[q - 1].entry));
    if start <= upTo {
      Untouched(prefix, log, start, if q == start then q else start - 1, upTo, seeded, path);
      if q == start {
        FateOfPut(prefix, log, start, q, path, seeded);
      }
    }
  }

  lemma CacheFate(prefix: KeyPrefix, log: seq<Event>, listed: seq<Entry>, upTo: nat, k: string)
    requires prefix.WellFormed() && LogOk(prefix, log) && upTo <= |log| && '/' in k && prefix.Covers(PathOf(prefix, k))
    ensures
      var values := ListValues(prefix, listed);
      Lookup(CacheAt(prefix, log, listed, upTo), k)
      == Fate(prefix, log, Start(values), upTo, Lookup(FromPairs(Keyed(values)), k), PathOf(prefix, k))
  {
    hide LogOk, PathOf, Fate, ListValues;
    var values := ListValues(prefix, listed);
    CacheIsFate(prefix, log, FromPairs(Keyed(values)), Start(values), upTo, k);
  }

  /**
   * And from any replayed revision to any later one, what a key shows never gets
   * older, whatever is deleted, created again or unheard in between.
   */
  lemma CacheNeverAges(prefix: KeyPrefix, log: seq<Event>, listedAt: nat, m: nat, n: nat, listed: seq<Entry>, k: string)
    requires prefix.WellFormed() && LogOk(prefix, log) && listedAt <= |log| < U64_LIMIT && m <= n <= |log|
    requires IsListing(prefix, Replay(log[..listedAt]), listed)
    ensures
      var early, late := CacheAt(prefix, log, listed, m), CacheAt(prefix, log, listed, n);
      k in early && k in late ==> RevisionOf(early[k]) <= RevisionOf(late[k])
  {
    hide LogOk, IsListing, ListValue, PathOf, CacheAt, NamespaceIn, Replay, RevisionOf, Fate;
    var values := ListValues(prefix, listed);
    var path := PathOf(prefix, k);
    var items := FromPairs(Keyed(values));
    StartBound(prefix, log, listedAt, listed);
    SeedIsView(prefix, log, listedAt, listed, k);
    if '/' !in k || !prefix.Covers(path) {
      hide Start;
      KeyStaysOut(prefix, log, listed, m, k);
    } else {
      CacheFate(prefix, log, listed, m, k);
      CacheFate(prefix, log, listed, n, k);
      SeedNotNewer(prefix, log, listedAt, listed, k);
      FateNeverAges(prefix, log, Start(values), m, n, Lookup(items, k), path);
    }
  }

  lemma KeyStaysOut(prefix: KeyPrefix, log: seq<Event>, listed: seq<Entry>, upTo: nat, k: string)
    requires prefix.WellFormed() && LogOk(prefix, log) && upTo <= |log|
    requires k !in FromPairs(Keyed(ListValues(prefix, listed)))
    requires !prefix.Covers(PathOf(prefix, k)) || '/' !in k
    ensures k !in CacheAt(prefix, log, listed, upTo)
  {
    hide LogOk, PathOf, ListValues;
    var values := ListValues(prefix, listed);
    ForeignKeyStaysOut(prefix, log, FromPairs(Keyed(values)), Start(values), upTo, k);
  }

  lemma SeedNotNewer(prefix: KeyPrefix, log: seq<Event>, listedAt: nat, listed: seq<Entry>, k: string)
    requires prefix.WellFormed() && LogOk(prefix, log) && listedAt <= |log| < U64_LIMIT
    requires IsListing(prefix, Replay(log[..listedAt]), listed)
    ensures
      var values := ListValues(prefix, listed);
      k in FromPairs(Keyed(values)) ==> RevisionOf(FromPairs(Keyed(values))[k]) <= Start(values)
  {
    hide LogOk, ListValue, PathOf, Replay, RevisionOf, Start, FromPairs;
    SeedIsView(prefix, log, listedAt, listed, k);
    StartIsNewest(prefix, log, listedAt, listed);
    var path := PathOf(prefix, k);
    if k in FromPairs(Keyed(ListValues(prefix, listed))) {
      ListedRevision(prefix, log, listedAt, path);
      var i :| 0 <= i < |listed| && listed[i].key == path;
    }
  }

  lemma {:induction false} FateNeverAges(prefix: KeyPrefix, log: seq<Event>, start: nat, m: nat, n: nat,
          seeded: Option<Value>, path: string)
    requires LogOk(prefix, log) && 1 <= start && m <= n <= |log| < U64_LIMIT
    requires seeded.Some? ==> RevisionOf(seeded.value) <= start
    ensures
      var late := Fate(prefix, log, start, n, seeded, path);
      && (late.Some? ==> RevisionOf(late.value) <= Max(start, n))
      && (late.Some? && Fate(prefix, log, start, m, seeded, path).Some? ==>
            RevisionOf(Fate(prefix, log, start, m, seeded, path).value) <= RevisionOf(late.value))
    decreases n
  {
    hide LogOk, ListValue, NamespaceIn, RevisionOf;
    if n >= start {
      FateNeverAges(prefix, log, start, if m < n then m else n - 1, n - 1, seeded, path);
      if m < n { FateNeverAges(prefix, log, start, m, m, seeded, path); }
      if log[n - 1].Put? && log[n - 1].Path() == path && prefix.Covers(path) {
        NamedRevision(prefix, log, n);
      }
    }
  }

  // --- Bodies that name something else -------------------------------------------------------------

  /**
   * All this is about bodies that carry the name of their path. Any other body,
   * which neither a replace nor a patch refuses, is listed under its own name.
   */
  lemma CachedUnderBodyName(prefix: KeyPrefix, e: Entry, key: Key, name: string)
    requires WellFormedKey(key) && key.namespace != "" && key.group == prefix.group && e.key == key.AsPath()
    requires StrAt(e.value, ["metadata", "name"]) == Some(name)
    ensures ObjectKey(ListValue(prefix, e)) == key.namespace + "/" + name
    ensures ObjectKey(ListValue(prefix, e)) == KeyFromPath(e.key) <==> name == key.name
  {
    PathComesApart(key);
    hide NamespaceOfPath, KeyFromPath;
    MetaOf(e.value, "name");
    var rv := Decimal(e.modRevision);
    SetMetaGet(e.value, "resourceVersion", rv);
    SetMetaGet(SetMeta(e.value, "resourceVersion", rv), "namespace", key.namespace);
    var ns := key.namespace + "/";
    assert (ns + name)[|ns|..] == name && (ns + key.name)[|ns|..] == key.name;
  }

  /** The key an event of such a body is cached under: its own namespace, or else its path's, and its own name. */
  function BodyKey(v: Value, ns: string): string {
    (if NamespaceIn(v) != "" then NamespaceIn(v) else ns) + "/" + OrEmpty(StrAt(v, ["metadata", "name"]))
  }

  /**
   * In any log, a put moves the cache at the key its body names and at no
   * other. That is the key of its path exactly if the body names its path's
   * name and no other namespace; if not, the key of the path keeps showing what
   * it showed, and the key named shows this body.
   */
  lemma MisnamedPut(prefix: KeyPrefix, log: seq<Event>, listed: seq<Entry>, at: nat, key: Key, name: string)
    requires Start(ListValues(prefix, listed)) <= at <= |log| && log[at - 1].Put?
    requires WellFormedKey(key) && key.namespace != "" && key.group == prefix.group
    requires log[at - 1].Path() == key.AsPath() && prefix.Covers(key.AsPath())
    requires StrAt(log[at - 1].entry.value, ["metadata", "name"]) == Some(name)
    ensures
      var e, own := log[at - 1].entry, key.namespace + "/" + key.name;
      var before, after := CacheAt(prefix, log, listed, at - 1), CacheAt(prefix, log, listed, at);
      && after == before[BodyKey(e.value, key.namespace) := EventValue(prefix, e)]
      && (BodyKey(e.value, key.namespace) == own <==>
            name == key.name && NamespaceIn(e.value) in ["", key.namespace])
      && (BodyKey(e.value, key.namespace) != own ==> Lookup(after, own) == Lookup(before, own))
  {
    hide CacheAt, ListValues, EventValue, BodyKey, MaxRevision, NamespaceIn, WellFormedKey, KeyPrefix.Covers,
      Key.AsPath;
    var e := log[at - 1].entry;
    BodyKeyIs(prefix, e, key, name);
    PutMoves(prefix, log, listed, at);
    BodyKeyIsOwn(e.value, key, name);
  }

  lemma PutMoves(prefix: KeyPrefix, log: seq<Event>, listed: seq<Entry>, at: nat)
    requires Start(ListValues(prefix, listed)) <= at <= |log| && log[at - 1].Put?
    requires prefix.Covers(log[at - 1].Path()) && Normalize(prefix, log[at - 1]).Put?
    ensures
      var value := EventValue(prefix, log[at - 1].entry);
      CacheAt(prefix, log, listed, at) == CacheAt(prefix, log, listed, at - 1)[ObjectKey(value) := value]
  {
    hide ListValues, ObjectKey, Revised, Normalize, MaxRevision, AppliedAll, Replayed, FromPairs, Keyed;
    CacheStep(prefix, log, FromPairs(Keyed(ListValues(prefix, listed))), Start(ListValues(prefix, listed)), at);
  }

  lemma BodyKeyIs(prefix: KeyPrefix, e: Entry, key: Key, name: string)
    requires WellFormedKey(key) && key.namespace != "" && key.group == prefix.group && e.key == key.AsPath()
    requires StrAt(e.value, ["metadata", "name"]) == Some(name)
    ensures Normalize(prefix, Put(e)).Put? && ObjectKey(EventValue(prefix, e)) == BodyKey(e.value, key.namespace)
  {
    PathComesApart(key);
    hide NamespaceOfPath, KeyFromPath;
    MetaOf(e.value, "name");
    var filled := if NamespaceIn(e.value) != "" then e.value else SetMeta(e.value, "namespace", key.namespace);
    SetMetaGet(e.value, "namespace", key.namespace);
    SetMetaGet(filled, "resourceVersion", Decimal(e.modRevision));
    MetaOf(filled, "name");
    assert Revised(Normalize(prefix, Put(e)).entry) == SetMeta(filled, "resourceVersion", Decimal(e.modRevision));
  }

  lemma BodyKeyIsOwn(v: Value, key: Key, name: string)
    requires WellFormedKey(key) && key.namespace != "" && StrAt(v, ["metadata", "name"]) == Some(name)
    ensures BodyKey(v, key.namespace) == key.namespace + "/" + key.name
       <==> name == key.name && NamespaceIn(v) in ["", key.namespace]
  {
    hide NamespaceIn;
    var ns := if NamespaceIn(v) != "" then NamespaceIn(v) else key.namespace;
    JoinedOnce(ns, name, key.namespace, key.name);
  }

  lemma JoinedOnce(a: string, b: string, ns: string, name: string)
    requires '/' !in ns && '/' !in name
    ensures a + "/" + b == ns + "/" + name <==> a == ns && b == name
  {
    var joined := a + "/" + b;
    if joined == ns + "/" + name {
      assert joined[|a|] == '/';
      forall i | 0 <= i < |joined| && i != |ns| ensures joined[i] != '/' {
        assert joined[i] == if i < |ns| then ns[i] else name[i - |ns| - 1];
      }
      assert joined[..|a|] == a && (ns + "/" + name)[..|a|] == ns;
      assert joined[|a| + 1..] == b && (ns + "/" + name)[|a| + 1..] == name;
    }
  }

  /** And its deletion removes the key that body names, the bare name if it names no namespace. */
  lemma MisnamedDelete(prefix: KeyPrefix, log: seq<Event>, listed: seq<Entry>, at: nat)
    requires Start(ListValues(prefix, listed)) <= at <= |log| && log[at - 1].Delete? && log[at - 1].prev.Some?
    requires prefix.Covers(log[at - 1].Path())
    ensures CacheAt(prefix, log, listed, at)
         == CacheAt(prefix, log, listed, at - 1) - {ObjectKey(log[at - 1].prev.value.value)}
  {
    hide ListValues, ObjectKey, MaxRevision;
    CacheStep(prefix, log, FromPairs(Keyed(ListValues(prefix, listed))), Start(ListValues(prefix, listed)), at);
  }

  // --- The handler calls of a re-LIST ---------------------------------------------------------------

  /** A `namespace/name` key of the collection. */
  ghost predicate ObjectName(prefix: KeyPrefix, k: string) {
    exists ns, name :: IsNameIn(prefix, k, ns, name)
  }

  ghost predicate IsNameIn(prefix: KeyPrefix, k: string, ns: string, name: string) {
    && IsSegment(ns) && IsSegment(name) && k == ns + "/" + name
    && (prefix.namespace.Some? ==> prefix.namespace.value == ns)
  }

  /** A re-LIST calls the handler for every key that is listed or gone, under that very key, and for no other. */
  lemma RelistHandlesEveryKey(prefix: KeyPrefix, values: seq<Value>, cached: set<string>, removed: seq<string>,
          rev: nat)
    requires prefix.WellFormed() && forall k :: k in cached ==> ObjectName(prefix, k)
    requires Enumerates(removed, cached - FromPairs(Keyed(values)).Keys)
    ensures Handled(ListedEvents(prefix, Keyed(values)) + RemovedEvents(prefix, removed, rev))
         == FromPairs(Keyed(values)).Keys + cached
  {
    hide ObjectKey, SyntheticPath, KeyFromPath, RevisionOf, ObjectName;
    var pairs := Keyed(values);
    FromPairsKeys(pairs);
    var listed, gone := ListedEvents(prefix, pairs), RemovedEvents(prefix, removed, rev);
    var events := listed + gone;
    assert forall i :: 0 <= i < |pairs| ==> EventKey(events[i]) == pairs[i].0;
    forall i | 0 <= i < |removed| ensures EventKey(events[|pairs| + i]) == removed[i] {
      assert removed[i] in removed && events[|pairs| + i] == gone[i];
      NameComesBack(prefix, removed[i]);
    }
    forall k ensures k in Handled(events) <==> k in FromPairs(pairs) || k in removed {
      if k in FromPairs(pairs) {
        var i :| 0 <= i < |pairs| && pairs[i].0 == k;
        assert EventKey(events[i]) == k;
      }
      if k in removed {
        var i :| 0 <= i < |removed| && removed[i] == k;
        assert EventKey(events[|pairs| + i]) == k;
      }
      if k in Handled(events) {
        var i :| 0 <= i < |events| && EventKey(events[i]) == k;
        assert i >= |pairs| ==> EventKey(events[|pairs| + (i - |pairs|)]) == removed[i - |pairs|];
      }
    }
  }

  /**
   * What the handler is told on a LIST: of each listed object a put under its own
   * path, at its own revision, of what LIST shows; of a key that is gone a
   * deletion under the path it had, at the first revision to be replayed.
   */
  lemma HandlerSeesListing(prefix: KeyPrefix, log: seq<Event>, listedAt: nat, listed: seq<Entry>, i: nat)
    requires prefix.WellFormed() && LogOk(prefix, log) && listedAt <= |log| < U64_LIMIT
    requires IsListing(prefix, Replay(log[..listedAt]), listed) && i < |listed|
    ensures
      var ev := ListedEvents(prefix, Keyed(ListValues(prefix, listed)))[i];
      && ev.Put? && ev.entry.value == ListValue(prefix, listed[i])
      && ev.entry.key == listed[i].key && ev.entry.modRevision == listed[i].modRevision
  {
    hide LogOk, ListValue, RevisionOf, ObjectKey, NamespaceOfPath, KeyFromPath, Names, Replay;
    var e := listed[i];
    var ns, name := EntryIsNamed(prefix, log, listedAt, e.key);
    NamedPut(prefix, e, ns, name);
    ListedRevision(prefix, log, listedAt, e.key);
    PathIsSynthetic(prefix, e, ns, name);
  }

  lemma PathIsSynthetic(prefix: KeyPrefix, e: Entry, ns: string, name: string)
    requires prefix.WellFormed() && prefix.Covers(e.key) && Names(prefix, e.key, e.value, ns, name)
    ensures SyntheticPath(prefix, ns + "/" + name) == e.key
  {
    hide KeyFromPath, Pieces;
    if prefix.namespace.Some? {
      var base := prefix.Base() + "/";
      var own := prefix.namespace.value;
      assert e.key == base + (ns + "/" + name);
      assert prefix.AsPath() + "/" == base + (own + "/");
      assert e.key[|base|..] == ns + "/" + name;
      assert (own + "/") <= ns + "/" + name;
      SameFirstSegment(own, ns, name);
    }
    SyntheticPathComesBack(prefix, ns, name);
  }

  lemma SameFirstSegment(own: string, ns: string, name: string)
    requires '/' !in ns && '/' !in name && own + "/" <= ns + "/" + name
    ensures own == ns
  {
    var joined := ns + "/" + name;
    assert joined == own + "/" + joined[|own| + 1..];
    JoinedOnce(own, joined[|own| + 1..], ns, name);
  }

  /** The same of a key that is gone. */
  lemma HandlerSeesRemoval(prefix: KeyPrefix, removed: seq<string>, start: nat, i: nat, ns: string, name: string)
    requires prefix.WellFormed() && i < |removed| && IsNameIn(prefix, removed[i], ns, name)
    ensures RemovedEvents(prefix, removed, start)[i]
         == Delete(Key(prefix.group, prefix.resource, ns, name).AsPath(), start, None)
  {
    hide KeyFromPath, Pieces;
    SyntheticPathComesBack(prefix, ns, name);
  }

  lemma NameComesBack(prefix: KeyPrefix, k: string)
    requires prefix.WellFormed() && ObjectName(prefix, k)
    ensures KeyFromPath(SyntheticPath(prefix, k)) == k
  {
    var ns, name :| IsNameIn(prefix, k, ns, name);
    SyntheticPathComesBack(prefix, ns, name);
  }

  lemma {:induction false} FromPairsKeys(pairs: seq<(string, Value)>)
    ensures forall k :: k in FromPairs(pairs) <==> exists i :: 0 <= i < |pairs| && pairs[i].0 == k
  {
    if pairs != [] {
      var front, last := pairs[..|pairs| - 1], pairs[|pairs| - 1];
      FromPairsKeys(front);
      assert FromPairs(pairs) == FromPairs(front)[last.0 := last.1];
      forall k ensures k in FromPairs(pairs) <==> exists i :: 0 <= i < |pairs| && pairs[i].0 == k {
        assert pairs[|front|].0 == last.0;
        if i :| 0 <= i < |front| && front[i].0 == k { assert pairs[i].0 == k; }
        if i :| 0 <= i < |pairs| && pairs[i].0 == k && i < |front| { assert front[i].0 == k; }
      }
    }
  }

  /** An event changes the cache at one key at most, and that is the key its handler call enqueues. */
  lemma HandlerIsTold(items: map<string, Value>, ev: Event)
    ensures Applied(items, ev) ==
      ControlLoop.Changed(items, EventKey(ev), if ev.Put? then Some(Revised(ev.entry)) else None)
  {
  }
}
