// A run of requests after which the cache holds one object under two keys, or
// under one the store does not have: PATCH gives a stored body another name.
module Renaming {
  import opened Options
  import opened Json
  import opened Text
  import opened Storage
  import opened Objects
  import opened Paths
  import opened StrategicMerge
  import opened ApiServer
  import opened PatchRequests
  import opened FinalizerLaws
  import opened Informer
  import opened CacheLaws
  import opened UnheardDeletion

  const RENAME := Object(map["metadata" := Object(map["name" := String("b")])])

  const CONFIG_MAPS := KeyPrefix("", "configmaps", None)

  /** A merge-patch with another name; what JSON Patch would do does not matter. */
  function RenameRequest(jsonPatch: Value -> Option<Value>): Request {
    PatchObject(PLACE, CONFIG_MAP, "a", EditFor(MERGE_PATCH, RENAME, jsonPatch))
  }

  function RenameRun(uid: string, jsonPatch: Value -> Option<Value>): seq<Request> {
    [CreateObject(PLACE, CONFIG_MAP, BODY, "", uid, true, true), RenameRequest(jsonPatch), DELETE_A]
  }

  lemma PatchRenames(v: Value)
    requires HasMeta(v) && v.Get("metadata").Some?
    ensures
      var w := Merge(v, RENAME, [], NO_STRATEGY);
      HasMeta(w) && Meta(w, "name") == Some(String("b")) && forall k :: k != "name" ==> Meta(w, k) == Meta(v, k)
  {
    var meta := Object(map["name" := String("b")]);
    var path: Path := [] + ["metadata"];
    var prior := v.fields["metadata"];
    assert RENAME.fields["metadata"] == meta;
    assert MergeMember(v.Get("metadata"), meta, path, NO_STRATEGY) == Some(Merge(prior, meta, path, NO_STRATEGY));
    assert MergeMember(prior.Get("name"), String("b"), path + ["name"], NO_STRATEGY) == Some(String("b"));
  }

  lemma RenameIsMergePatch(jsonPatch: Value -> Option<Value>)
    ensures forall v :: RenameRequest(jsonPatch).edit(v) == Some(Merge(v, RENAME, [], NO_STRATEGY))
  {
    MergePatchType();
  }

  /** What the PATCH and the DELETE log. */
  lemma RenameLogs(s: Store, a: Entry, jsonPatch: Value -> Option<Value>) returns (e: Entry)
    requires s == Store(1, map[a.key := a], [Put(a)]) && a.key == ItemKey(PLACE, "a").AsPath()
    requires !HasFinalizers(a.value) && !Stamped(a.value)
    requires StrAt(a.value, ["metadata", "name"]) == Some("a") && NamespaceIn(a.value) == "default"
    ensures e.key == a.key && e.modRevision == 2 && Handle(s, RenameRequest(jsonPatch)).0 == s.Write(e)
    ensures StrAt(e.value, ["metadata", "name"]) == Some("b") && NamespaceIn(e.value) == "default"
    ensures
      var next := Handle(s.Write(e), DELETE_A).0;
      next.log == [Put(a), Put(e), Delete(e.key, 3, Some(e))] && next.entries == map[]
  {
    hide Merge, SetTypeMeta, Wire, RemovedReply, HasFinalizers, Stamped, StrAt, Created, Replaced, OrphanDeleted,
      SoftDeleted, EditFor, Key.AsPath, NamespaceIn;
    RenameIsMergePatch(jsonPatch);
    RenamedBody(a.value);
    e := Entry(a.key, SetTypeMeta(Merge(a.value, RENAME, [], NO_STRATEGY), CONFIG_MAP), a.createRevision, 2,
      a.version + 1);
  }

  /** The body the PATCH stores. */
  lemma RenamedBody(v: Value)
    requires !HasFinalizers(v) && !Stamped(v)
    requires StrAt(v, ["metadata", "name"]) == Some("a") && NamespaceIn(v) == "default"
    ensures
      var w := SetTypeMeta(Merge(v, RENAME, [], NO_STRATEGY), CONFIG_MAP);
      && !HasFinalizers(w) && !Stamped(w)
      && StrAt(w, ["metadata", "name"]) == Some("b") && NamespaceIn(w) == "default"
  {
    hide Merge, SetTypeMeta, HasFinalizers, Stamped, StrAt, Meta, HasMeta, Gate, Value.Pointer;
    MetaIs(v);
    HasSome(v);
    PatchRenames(v);
    var merged := Merge(v, RENAME, [], NO_STRATEGY);
    MetaAfterType(merged, CONFIG_MAP);
    var w := SetTypeMeta(merged, CONFIG_MAP);
    MetaIs(w);
    GateIs(v);
    GateIs(w);
    SameGate(v, w);
  }

  /** What the LIST after the create leaves. */
  lemma AfterList(a: Entry, log: seq<Event>, listed: seq<Entry>)
    requires log != [] && log[0] == Put(a) && a.modRevision == 1
    requires Names(CONFIG_MAPS, a.key, a.value, "default", "a") && IsListing(CONFIG_MAPS, map[a.key := a], listed)
    requires a.key == ItemKey(PLACE, "a").AsPath()
    ensures Start(ListValues(CONFIG_MAPS, listed)) == 1
    ensures CacheAt(CONFIG_MAPS, log, listed, 1) == map["default/a" := ListValue(CONFIG_MAPS, a)]
  {
    hide ListValue, EventValue, Names, ObjectKey, Normalize, Revised, ResourceVersion, KeyPrefix.Covers, Key.AsPath,
      HasMeta, NamespaceOfPath;
    CoversPlace("a");
    OnlyEntry(CONFIG_MAPS, map[a.key := a], a, listed);
    assert listed == [a] && "default" + "/" + "a" == "default/a";
    WellFormedMaps();
    NamedPut(CONFIG_MAPS, a, "default", "a");
    NamedHasMeta(CONFIG_MAPS, a, "default", "a");
    ProjectCarriesRevision(a, Some("default"));
    OneListed(a, "default/a");
    var values := ListValues(CONFIG_MAPS, listed);
    var items := FromPairs(Keyed(values));
    CacheStart(CONFIG_MAPS, log, items, 1, 0);
    PutStaysPut(a);
    PutMoves(CONFIG_MAPS, log, listed, 1);
  }

  lemma WellFormedMaps()
    ensures CONFIG_MAPS.WellFormed()
  {
  }

  lemma PutStaysPut(e: Entry)
    ensures Normalize(CONFIG_MAPS, Put(e)).Put?
  {
  }

  lemma OneListed(a: Entry, k: string)
    requires ObjectKey(ListValue(CONFIG_MAPS, a)) == k && RevisionOf(ListValue(CONFIG_MAPS, a)) == 1
    ensures
      var values := ListValues(CONFIG_MAPS, [a]);
      Start(values) == 1 && FromPairs(Keyed(values)) == map[k := ListValue(CONFIG_MAPS, a)]
  {
    hide ListValue, ObjectKey, RevisionOf;
    var v := ListValue(CONFIG_MAPS, a);
    assert ListValues(CONFIG_MAPS, [a]) == [v] && Keyed([v]) == [(k, v)];
    assert [(k, v)][..0] == [] && [v][..0] == [];
    assert MaxRevision([v]) == Max(MaxRevision([v][..0]), RevisionOf(v)) == 1;
  }

  lemma CoversPlace(name: string)
    ensures CONFIG_MAPS.Covers(ItemKey(PLACE, name).AsPath())
  {
    assert ItemKey(PLACE, name).AsPath() == CONFIG_MAPS.AsPath() + "/" + ("default" + "/" + name);
  }

  /**
   * After a rename the store has the object under its path, with the new name,
   * and an informer that listed before has it twice: as it was under the key of
   * its path, as it is under the new name. After the deletion the store has
   * nothing, and the informer still has the object as it first was.
   */
  lemma RenameLeavesBoth(uid: string, jsonPatch: Value -> Option<Value>, listed: seq<Entry>)
    returns (a: Entry, b: Entry)
    requires IsListing(CONFIG_MAPS, HandleAll(RenameRun(uid, jsonPatch)[..1]).entries, listed)
    ensures
      var run := RenameRun(uid, jsonPatch);
      var log := HandleAll(run).log;
      && log == [Put(a), Put(b), Delete(b.key, 3, Some(b))] && a.key == b.key == ItemKey(PLACE, "a").AsPath()
      && HandleAll(run[..2]).entries == map[b.key := b] && HandleAll(run).entries == map[]
      && CacheAt(CONFIG_MAPS, log, listed, 2)
         == map["default/a" := ListValue(CONFIG_MAPS, a), "default/b" := EventValue(CONFIG_MAPS, b)]
      && CacheAt(CONFIG_MAPS, log, listed, 3) == map["default/a" := ListValue(CONFIG_MAPS, a)]
  {
    hide Handle, HandleAll, ListValue, EventValue, CacheAt, Names, StrAt, NamespaceIn, Key.AsPath, IsListing, RenameRun;
    a, b := RenameStores(uid, jsonPatch);
    RenamedCache(a, b, HandleAll(RenameRun(uid, jsonPatch)).log, listed);
  }

  /** What the three requests leave in the store, one after another. */
  lemma RenameStores(uid: string, jsonPatch: Value -> Option<Value>) returns (a: Entry, b: Entry)
    ensures
      var run := RenameRun(uid, jsonPatch);
      && HandleAll(run[..1]).entries == map[a.key := a]
      && HandleAll(run[..2]).entries == map[b.key := b]
      && HandleAll(run).log == [Put(a), Put(b), Delete(b.key, 3, Some(b))] && HandleAll(run).entries == map[]
    ensures a.key == b.key == ItemKey(PLACE, "a").AsPath() && a.modRevision == 1
    ensures Names(CONFIG_MAPS, a.key, a.value, "default", "a")
    ensures StrAt(b.value, ["metadata", "name"]) == Some("b") && NamespaceIn(b.value) == "default"
  {
    hide Handle, HandleAll, Names, StrAt, NamespaceIn, Stamped, HasFinalizers, RenameRequest, Key.AsPath;
    var run := RenameRun(uid, jsonPatch);
    HandleSteps(run);
    a := FirstStore(uid);
    var s1 := Store(1, map[a.key := a], [Put(a)]);
    b := RenameLogs(s1, a, jsonPatch);
    assert HandleAll(run[..2]) == s1.Write(b);
    assert map[a.key := a][b.key := b] == map[b.key := b];
  }

  lemma RenamedCache(a: Entry, b: Entry, log: seq<Event>, listed: seq<Entry>)
    requires log == [Put(a), Put(b), Delete(b.key, 3, Some(b))] && a.modRevision == 1
    requires a.key == b.key == ItemKey(PLACE, "a").AsPath() && IsListing(CONFIG_MAPS, map[a.key := a], listed)
    requires Names(CONFIG_MAPS, a.key, a.value, "default", "a")
    requires StrAt(b.value, ["metadata", "name"]) == Some("b") && NamespaceIn(b.value) == "default"
    ensures CacheAt(CONFIG_MAPS, log, listed, 2)
         == map["default/a" := ListValue(CONFIG_MAPS, a), "default/b" := EventValue(CONFIG_MAPS, b)]
    ensures CacheAt(CONFIG_MAPS, log, listed, 3) == map["default/a" := ListValue(CONFIG_MAPS, a)]
  {
    hide ListValue, EventValue, CacheAt, ListValues, Names, StrAt, NamespaceIn, Key.AsPath, KeyPrefix.Covers,
      IsListing, Start, ObjectKey, BodyKey;
    AfterList(a, log, listed);
    CoversPlace("a");
    PlaceIsWellFormed();
    MisnamedPut(CONFIG_MAPS, log, listed, 2, ItemKey(PLACE, "a"), "b");
    RenamedKey(b.value);
    MisnamedDelete(CONFIG_MAPS, log, listed, 3);
  }

  lemma PlaceIsWellFormed()
    ensures WellFormedKey(ItemKey(PLACE, "a"))
  {
  }

  lemma RenamedKey(v: Value)
    requires StrAt(v, ["metadata", "name"]) == Some("b") && NamespaceIn(v) == "default"
    ensures BodyKey(v, "default") == ObjectKey(v) == "default/b" && "default/a" != "default/b"
  {
    hide NamespaceIn;
    assert "default" + "/" + "b" == "default/b";
    assert "default/a"[8] == 'a' && "default/b"[8] == 'b';
  }
}
