// A run of requests whose deletion no informer hears of: PATCH takes the
// namespace out of a stored body, DELETE logs that body.
module UnheardDeletion {
  import opened Options
  import opened Json
  import opened Text
  import opened Storage
  import opened Objects
  import opened Paths
  import opened StrategicMerge
  import opened ApiServer
  import opened PatchRequests
  import opened FinalizerLaws
  import opened Informer
  import opened CacheLaws

  const DROP_NAMESPACE := Object(map["metadata" := Object(map["namespace" := Null])])

  /** Under every strategy the patch takes out the namespace and nothing else of `metadata`. */
  lemma PatchDropsNamespace(v: Value, strategy: Strategy)
    requires HasMeta(v) && v.Get("metadata").Some?
    ensures
      var w := Merge(v, DROP_NAMESPACE, [], strategy);
      HasMeta(w) && Meta(w, "namespace") == None && forall k :: k != "namespace" ==> Meta(w, k) == Meta(v, k)
  {
    var meta := Object(map["namespace" := Null]);
    var path: Path := [] + ["metadata"];
    assert DROP_NAMESPACE.fields["metadata"] == meta;
    var prior := v.fields["metadata"];
    assert MergeMember(v.Get("metadata"), meta, path, strategy) == Some(Merge(prior, meta, path, strategy));
    assert MergeMember(prior.Get("namespace"), Null, path + ["namespace"], strategy) == None;
  }

  /** The two requests, for an object of the collection. */
  ghost predicate DropThenDelete(prefix: KeyPrefix, drop: Request, delete: Request, strategy: Strategy) {
    && drop.PatchObject? && delete == DeleteObject(drop.loc, drop.res, drop.name, None, None, 0)
    && (forall v :: drop.edit(v) == Some(Merge(v, DROP_NAMESPACE, [], strategy)))
    && ScopeFits(drop.loc, drop.res) && drop.loc.namespace.Some?
    && drop.loc.group == prefix.group && drop.loc.resource == prefix.resource
    && prefix.namespace in [None, drop.loc.namespace]
  }

  /** Nothing keeps the object of a request: it is live, well named, and without finalizers. */
  ghost predicate Loose(prefix: KeyPrefix, s: Store, req: Request)
    requires req.PatchObject? && req.loc.namespace.Some?
  {
    var path := ItemKey(req.loc, req.name).AsPath();
    && path in s.entries && !HasFinalizers(s.entries[path].value)
    && Names(prefix, path, s.entries[path].value, req.loc.namespace.value, req.name)
  }

  /** What the two requests log: the body without its namespace, then its deletion. */
  lemma DropThenDeleteLogs(prefix: KeyPrefix, s: Store, drop: Request, delete: Request, strategy: Strategy)
    returns (e: Entry)
    requires Inv(s) && DropThenDelete(prefix, drop, delete, strategy) && Loose(prefix, s, drop)
    ensures e.key == ItemKey(drop.loc, drop.name).AsPath() && e.modRevision == s.revision + 1
    ensures Names(prefix, e.key, e.value, drop.loc.namespace.value, drop.name) && NamespaceIn(e.value) == ""
    ensures Handle(s, drop).0 == s.Write(e)
    ensures
      var next := Handle(s.Write(e), delete).0;
      next.log == s.log + [Put(e), Delete(e.key, s.revision + 2, Some(e))] && e.key !in next.entries
  {
    hide Merge, SetTypeMeta, Wire, RemovedReply, HasFinalizers, Stamped, StrAt, Meta, HasMeta, Replay, Tombstones,
      UidOf, GeneratePrefix, Gate, Value.Pointer, Created, Replaced, OrphanDeleted, SoftDeleted, RemovalsAreClean;
    var key := ItemKey(drop.loc, drop.name);
    var current := s.entries[key.AsPath()];
    MetaIs(current.value);
    HasSome(current.value);
    PatchDropsNamespace(current.value, strategy);
    var merged := Merge(current.value, DROP_NAMESPACE, [], strategy);
    MetaAfterType(merged, drop.res);
    var body := SetTypeMeta(merged, drop.res);
    MetaIs(body);
    GateIs(current.value);
    GateIs(body);
    SameGate(current.value, body);
    e := Entry(current.key, body, current.createRevision, s.revision + 1, current.version + 1);
    LiveEntryIsLogged(s.log, key.AsPath());
  }

  lemma GateIs(v: Value)
    ensures Gate(v) == (Meta(v, "finalizers"), Meta(v, "deletionTimestamp"))
  {
    TwoSteps(v, "metadata");
  }

  /**
   * An object whose namespace a PATCH takes out before a DELETE stays in the
   * cache of every informer that listed before the deletion, for as long as
   * nothing else is written under its path. The store no longer has it.
   */
  lemma DroppedNamespaceGoesUnheard(prefix: KeyPrefix, s: Store, drop: Request, delete: Request, strategy: Strategy,
          log: seq<Event>, listedAt: nat, upTo: nat, listed: seq<Entry>)
    requires prefix.WellFormed() && Inv(s)
    requires DropThenDelete(prefix, drop, delete, strategy) && Loose(prefix, s, drop)
    requires LogOk(prefix, log) && s.revision + 2 <= upTo <= |log| < U64_LIMIT
    requires log[..s.revision + 2] == Handle(Handle(s, drop).0, delete).0.log
    requires forall i :: s.revision + 2 <= i < upTo ==> log[i].Path() != ItemKey(drop.loc, drop.name).AsPath()
    requires listedAt <= s.revision + 1 && IsListing(prefix, Replay(log[..listedAt]), listed)
    ensures
      var k := drop.loc.namespace.value + "/" + drop.name;
      && PathOf(prefix, k) == ItemKey(drop.loc, drop.name).AsPath() && PathOf(prefix, k) !in Replay(log[..upTo])
      && k in CacheAt(prefix, log, listed, upTo)
  {
    hide Handle, LogOk, IsListing, CacheAt, Replay, Names, PathOf, Loose, Inv, Start;
    var ns, path := drop.loc.namespace.value, ItemKey(drop.loc, drop.name).AsPath();
    var d := s.revision + 2;
    var e := DropThenDeleteLogs(prefix, s, drop, delete, strategy);
    PathOfName(prefix, path, e.value, ns, drop.name);
    CoversItem(prefix, s, drop, delete, strategy);
    LogLength(s);
    assert log[d - 1] == log[..d][d - 1] == Delete(path, d, Some(e));
    StaysCached(prefix, log, e, d, listedAt, upTo, listed, ns + "/" + drop.name);
  }

  lemma LogLength(s: Store)
    requires Inv(s)
    ensures |s.log| == s.revision
  {
  }

  /** The deletion of a body without a namespace leaves the cache entry, whenever the cache could have it. */
  lemma StaysCached(prefix: KeyPrefix, log: seq<Event>, e: Entry, d: nat, listedAt: nat, upTo: nat, listed: seq<Entry>,
          k: string)
    requires prefix.WellFormed() && LogOk(prefix, log) && listedAt < d <= upTo <= |log| < U64_LIMIT && 1 <= d
    requires IsListing(prefix, Replay(log[..listedAt]), listed)
    requires log[d - 1] == Delete(PathOf(prefix, k), d, Some(e)) && NamespaceIn(e.value) == ""
    requires prefix.Covers(PathOf(prefix, k)) && forall i :: d <= i < upTo ==> log[i].Path() != PathOf(prefix, k)
    ensures PathOf(prefix, k) !in Replay(log[..upTo]) && k in CacheAt(prefix, log, listed, upTo)
  {
    hide LogOk, IsListing, CacheAt, PathOf, NamespaceIn, Start, KeyPrefix.Covers, KeyPrefix.WellFormed, Tombstones,
      Fate, ListValues;
    var path := PathOf(prefix, k);
    GoneSince(prefix, log, e, d, upTo, path);
    StartBound(prefix, log, listedAt, listed);
    assert UnheardAt(log, Start(ListValues(prefix, listed)), listedAt, upTo, path, d);
    hide Unheard, UnheardAt, Replay;
    Converges(prefix, log, listedAt, upTo, listed, k);
  }

  lemma GoneSince(prefix: KeyPrefix, log: seq<Event>, e: Entry, d: nat, upTo: nat, path: string)
    requires 1 <= d <= upTo <= |log| && log[d - 1] == Delete(path, d, Some(e))
    requires forall i :: d <= i < upTo ==> log[i].Path() != path
    ensures path !in Replay(log[..upTo]) && LastTouch(log, d, upTo, path)
  {
    assert log[..d][..d - 1] == log[..d - 1];
    Untouched(prefix, log, 1, d, upTo, None, path);
  }

  lemma CoversItem(prefix: KeyPrefix, s: Store, drop: Request, delete: Request, strategy: Strategy)
    requires DropThenDelete(prefix, drop, delete, strategy) && Loose(prefix, s, drop)
    ensures prefix.Covers(ItemKey(drop.loc, drop.name).AsPath())
  {
    var path := ItemKey(drop.loc, drop.name).AsPath();
    var start := prefix.AsPath() + "/";
    assert path == start + drop.name || path == start + (drop.loc.namespace.value + "/" + drop.name);
    assert path[..|start|] == start;
  }

  // --- One such run ------------------------------------------------------------------------------

  const PLACE := Loc("", "configmaps", Some("default"))
  const CONFIG_MAP := Resolved("v1", "ConfigMap", true)
  const BODY := Object(map["metadata" := Object(map["name" := String("a")])])

  /** A merge-patch with a null namespace; what JSON Patch would do does not matter. */
  function DropRequest(jsonPatch: Value -> Option<Value>): Request {
    PatchObject(PLACE, CONFIG_MAP, "a", EditFor(MERGE_PATCH, DROP_NAMESPACE, jsonPatch))
  }

  const DELETE_A := DeleteObject(PLACE, CONFIG_MAP, "a", None, None, 0)

  function TheRun(uid: string, jsonPatch: Value -> Option<Value>): seq<Request> {
    [CreateObject(PLACE, CONFIG_MAP, BODY, "", uid, true, true), DropRequest(jsonPatch), DELETE_A]
  }

  lemma DropIsMergePatch(jsonPatch: Value -> Option<Value>)
    ensures forall v :: DropRequest(jsonPatch).edit(v) == Some(Merge(v, DROP_NAMESPACE, [], NO_STRATEGY))
  {
    MergePatchType();
  }

  lemma BodyIsPlain()
    ensures NameOf(BODY) == Some("a") && !Stamped(BODY) && !HasFinalizers(BODY)
  {
    MetaIs(BODY);
    GateIs(BODY);
  }

  /** The store after the create. */
  lemma FirstStore(uid: string) returns (e: Entry)
    ensures
      var create := CreateObject(PLACE, CONFIG_MAP, BODY, "", uid, true, true);
      Handle(EMPTY_STORE, create).0 == Store(1, map[e.key := e], [Put(e)])
    ensures e.key == ItemKey(PLACE, "a").AsPath() && e.modRevision == 1
    ensures !HasFinalizers(e.value) && !Stamped(e.value)
    ensures StrAt(e.value, ["metadata", "name"]) == Some("a") && NamespaceIn(e.value) == "default"
    ensures Names(KeyPrefix("", "configmaps", None), e.key, e.value, "default", "a")
  {
    hide Prepared, NamespaceIn, HasFinalizers, Stamped, StrAt, Wire, Gate, UidOf, GeneratePrefix;
    BodyIsPlain();
    var create := CreateObject(PLACE, CONFIG_MAP, BODY, "", uid, true, true);
    var path := ItemKey(PLACE, "a").AsPath();
    e := Entry(path, Prepared(PLACE, CONFIG_MAP, BODY, "a", uid), 1, 1, 1);
    CreatedObject(EMPTY_STORE, create);
    PreparedGate(PLACE, CONFIG_MAP, BODY, "a", uid);
    SameGate(BODY, e.value);
    assert NameOf(e.value) == Some("a") && NamespaceIn(e.value) == "default";
    assert IsSegment("default") && IsSegment("a") && IsSegment("configmaps");
  }

  /**
   * CREATE, PATCH, DELETE: three requests from the empty store after which an
   * informer that listed at revision 2 has the object and the store does not.
   */
  lemma DeletionGoesUnheard(uid: string, jsonPatch: Value -> Option<Value>, listed: seq<Entry>)
    requires IsListing(KeyPrefix("", "configmaps", None), HandleAll(TheRun(uid, jsonPatch)[..2]).entries, listed)
    ensures
      var prefix := KeyPrefix("", "configmaps", None);
      var s := HandleAll(TheRun(uid, jsonPatch));
      && s.Valid() && s.revision == 3 && s.entries == map[] && |listed| == 1
      && "default/a" in CacheAt(prefix, s.log, listed, 3)
  {
    hide Handle, HandleAll, LogOk, ListValue, NamespaceIn, CacheAt, Tombstones, HasFinalizers, Merge, Names, PathOf,
      NothingFinished, RemovalsAreClean, EditFor, Stamped, Admissible;
    var prefix, run := KeyPrefix("", "configmaps", None), TheRun(uid, jsonPatch);
    var drop := DropRequest(jsonPatch);
    var s1, s3 := HandleAll(run[..1]), HandleAll(run);
    HandleSteps(run);
    var e1 := FirstStore(uid);
    DropIsMergePatch(jsonPatch);
    RunIsGated(uid, jsonPatch);
    assert Loose(prefix, s1, drop);
    var e2 := DropThenDeleteLogs(prefix, s1, drop, DELETE_A, NO_STRATEGY);
    assert s3.log == [Put(e1), Put(e2), Delete(e2.key, 3, Some(e2))];
    NamedLog(prefix, s3.log, e1, e2);
    var s2 := HandleAll(run[..2]);
    assert s2.entries == map[e2.key := e2];
    CoversItem(prefix, s1, drop, DELETE_A, NO_STRATEGY);
    OnlyEntry(prefix, s2.entries, e2, listed);
    assert s3.log[..2] == s2.log;
    assert s3.log[..3] == s3.log;
    assert "default" + "/" + "a" == "default/a";
    DroppedNamespaceGoesUnheard(prefix, s1, drop, DELETE_A, NO_STRATEGY, s3.log, 2, 3, listed);
  }

  lemma RunIsGated(uid: string, jsonPatch: Value -> Option<Value>)
    ensures Inv(HandleAll(TheRun(uid, jsonPatch)[..1])) && Inv(HandleAll(TheRun(uid, jsonPatch)))
  {
    hide HandleAll, Inv, HasFinalizers, Stamped, EditFor;
    BodyIsPlain();
    GatingHolds(TheRun(uid, jsonPatch)[..1]);
    GatingHolds(TheRun(uid, jsonPatch));
  }

  lemma OnlyEntry(prefix: KeyPrefix, entries: map<string, Entry>, e: Entry, listed: seq<Entry>)
    requires entries == map[e.key := e] && prefix.Covers(e.key) && IsListing(prefix, entries, listed)
    ensures |listed| == 1
  {
    if |listed| > 1 {
      FirstTwoDiffer(listed);
    }
  }

  lemma FirstTwoDiffer(listed: seq<Entry>)
    requires DistinctPaths(listed) && |listed| > 1
    ensures listed[0].key != listed[1].key
  {
  }

  /** A run of three requests, one after another. */
  lemma HandleSteps(run: seq<Request>)
    requires |run| == 3
    ensures HandleAll(run[..1]) == Handle(EMPTY_STORE, run[0]).0
    ensures HandleAll(run[..2]) == Handle(HandleAll(run[..1]), run[1]).0
    ensures HandleAll(run) == Handle(HandleAll(run[..2]), run[2]).0
  {
    hide Handle;
    assert run[..1][..0] == [] && run[..2][..1] == run[..1] && run[..3] == run;
  }

  lemma NamedLog(prefix: KeyPrefix, log: seq<Event>, e1: Entry, e2: Entry)
    requires log == [Put(e1), Put(e2), Delete(e2.key, 3, Some(e2))] && Tombstones(log)
    requires e1.modRevision == 1 && e2.modRevision == 2
    requires Names(prefix, e1.key, e1.value, "default", "a") && Names(prefix, e2.key, e2.value, "default", "a")
    ensures LogOk(prefix, log)
  {
    hide Names, Tombstones;
  }
}
