// What every request answers and stores, case by case, and what becomes of a
// PATCH or a DELETE when somebody writes between its read and its write.
module RequestLaws {
  import opened Options
  import opened Json
  import opened Text
  import opened Storage
  import opened Objects
  import opened Time
  import opened NodePorts
  import opened NodePortLaws
  import opened Healing
  import opened ApiServer
  import opened FinalizerLaws
  import opened ServicePorts

  /** The path of an object as the request names it. */
  function PathOfRequest(loc: Loc, name: string): string {
    Key(loc.group, loc.resource, OrEmpty(loc.namespace), name).AsPath()
  }

  /** An entry as clients see it: at its revision, and otherwise as it is stored. */
  ghost predicate Shows(body: Value, e: Entry) {
    HasMeta(e.value) && e.modRevision < U64_LIMIT ==>
      && ResourceVersion(body) == Some(e.modRevision)
      && (forall k :: k != "metadata" ==> body.Get(k) == e.value.Get(k))
      && (forall k :: k != "resourceVersion" ==> Meta(body, k) == Meta(e.value, k))
  }

  lemma WireShows(e: Entry)
    ensures Shows(Wire(e), e)
  {
    if HasMeta(e.value) && e.modRevision < U64_LIMIT {
      ProjectCarriesRevision(e, None);
      MetaAfterSet(e.value, "resourceVersion", Decimal(e.modRevision));
    }
  }

  // --- PUT ------------------------------------------------------------------------------------

  /** The namespace a body names is that of the path, or none. */
  predicate InPlace(loc: Loc, body: Value) {
    loc.namespace.Some? ==> NamespaceIn(body) in {"", loc.namespace.value}
  }

  /**
   * What a PUT answers, in every case; it is refused for its revision exactly
   * if the body's `resourceVersion` is a revision and not the stored one.
   */
  lemma ReplaceAnswers(s: Store, loc: Loc, res: Resolved, name: string, body: Value)
    ensures
      var path := PathOfRequest(loc, name);
      var (next, reply) := Replaced(s, loc, res, name, body);
      if res.namespaced != loc.namespace.Some? then (next, reply) == (s, NoSuchResource)
      else if !InPlace(loc, body) then (next, reply) == (s, BadRequest)
      else if path !in s.entries then (next, reply) == (s, StoreSays(NotFound))
      else if ResourceVersion(body).Some? && ResourceVersion(body).value != s.entries[path].modRevision then
        (next, reply) == (s, StoreSays(Conflict))
      else reply.Done?
  {
    hide SetMeta, SetTypeMeta, DeletionFinalized, Wire, ResourceVersion, NamespaceIn, Key.AsPath;
    TypedIs(body, res);
  }

  lemma TypedIs(body: Value, res: Resolved)
    ensures SetTypeMeta(body, res).Get("metadata") == body.Get("metadata")
    ensures NamespaceIn(SetTypeMeta(body, res)) == NamespaceIn(body)
  {
    TwoSteps(body, "metadata");
    TwoSteps(SetTypeMeta(body, res), "metadata");
  }

  /**
   * What a granted PUT writes: at the next revision the body as it was sent, with
   * the type and the namespace of the path; the object's life goes on. It
   * answers with just that.
   */
  lemma ReplaceStores(s: Store, loc: Loc, res: Resolved, name: string, body: Value) returns (e: Entry)
    requires Replaced(s, loc, res, name, body).1.Done?
    ensures
      var path := PathOfRequest(loc, name);
      var (next, reply) := Replaced(s, loc, res, name, body);
      && path in s.entries && |next.log| > |s.log| && next.log[..|s.log| + 1] == s.log + [Put(e)]
      && Succeeds(s.entries[path], e, path, s.revision + 1) && Shows(reply.body, e)
      && (DeletionFinalized(body) ==> path !in next.entries)
      && (!DeletionFinalized(body) ==>
            path in next.entries && next.entries[path] == e && next.revision == s.revision + 1)
    ensures HasMeta(body) ==>
      && (forall k :: k !in {"apiVersion", "kind", "metadata"} ==> e.value.Get(k) == body.Get(k))
      && (forall k :: k != "namespace" ==> Meta(e.value, k) == Meta(body, k))
      && e.value.Get("apiVersion") == Some(String(res.apiVersion)) && e.value.Get("kind") == Some(String(res.kind))
      && (loc.namespace.Some? ==> NamespaceIn(e.value) == loc.namespace.value)
  {
    hide SetMeta, SetTypeMeta, DeletionFinalized, Wire, ResourceVersion, NamespaceIn, Key.AsPath, HasMeta, Meta, Gate;
    var typed := SetTypeMeta(body, res);
    var placed := PlacedIn(loc, typed);
    var key := ItemKey(loc, name);
    TypedIs(body, res);
    e := s.Update(key, placed, ResourceVersion(body)).1.value;
    WireShows(e);
    SetTypeMetaKeepsGate(body, res);
    SetMetaKeepsGate(typed, "namespace", OrEmpty(loc.namespace));
    SameGate(body, placed);
    if HasMeta(body) { PlacedIs(loc, res, body); }
  }

  /** The next version of an entry. */
  predicate Succeeds(prior: Entry, e: Entry, path: string, revision: nat) {
    && e.key == path && e.modRevision == revision
    && e.createRevision == prior.createRevision && e.version == prior.version + 1
  }

  lemma PlacedIs(loc: Loc, res: Resolved, body: Value)
    requires HasMeta(body)
    ensures
      var v := PlacedIn(loc, SetTypeMeta(body, res));
      && (forall k :: k !in {"apiVersion", "kind", "metadata"} ==> v.Get(k) == body.Get(k))
      && (forall k :: k != "namespace" ==> Meta(v, k) == Meta(body, k))
      && v.Get("apiVersion") == Some(String(res.apiVersion)) && v.Get("kind") == Some(String(res.kind))
      && (InPlace(loc, body) && loc.namespace.Some? ==> NamespaceIn(v) == loc.namespace.value)
  {
    hide SetMeta, NamespaceIn, Meta;
    var typed := SetTypeMeta(body, res);
    TypedIs(body, res);
    MetaAfterType(body, res);
    if loc.namespace.Some? {
      MetaAfterSet(typed, "namespace", loc.namespace.value);
      MetaIs(SetMeta(typed, "namespace", loc.namespace.value));
    }
  }

  // --- PATCH ------------------------------------------------------------------------------------

  /** What a PATCH answers, in every case, with nobody writing meanwhile: it never loses a race. */
  lemma PatchAnswers(s: Store, loc: Loc, res: Resolved, name: string, edit: Value -> Option<Value>)
    ensures
      var path := PathOfRequest(loc, name);
      var (next, reply) := Patched(s, loc, res, name, edit);
      if res.namespaced != loc.namespace.Some? then (next, reply) == (s, NoSuchResource)
      else if path !in s.entries then (next, reply) == (s, NoSuchObject)
      else if edit(s.entries[path].value).None? then (next, reply) == (s, BadRequest)
      else reply.Done?
  {
    hide SetTypeMeta, DeletionFinalized, Wire, Key.AsPath;
    NoOps(s);
  }

  /** What a granted PATCH writes: at the next revision the edited body, with the type of the path and nothing else. */
  lemma PatchStores(s: Store, loc: Loc, res: Resolved, name: string, edit: Value -> Option<Value>) returns (e: Entry)
    requires Patched(s, loc, res, name, edit).1.Done?
    ensures
      var path := PathOfRequest(loc, name);
      var (next, reply) := Patched(s, loc, res, name, edit);
      && path in s.entries && edit(s.entries[path].value).Some? && |next.log| > |s.log|
      && next.log[..|s.log| + 1] == s.log + [Put(e)]
      && Succeeds(s.entries[path], e, path, s.revision + 1) && Shows(reply.body, e)
      && var merged := edit(s.entries[path].value).value;
         && (DeletionFinalized(merged) ==> path !in next.entries)
         && (!DeletionFinalized(merged) ==> path in next.entries && next.entries[path] == e)
         && (merged.Object? ==>
               && (forall k :: k !in {"apiVersion", "kind"} ==> e.value.Get(k) == merged.Get(k))
               && e.value.Get("apiVersion") == Some(String(res.apiVersion))
               && e.value.Get("kind") == Some(String(res.kind)))
  {
    hide DeletionFinalized, Wire, Key.AsPath, HasMeta, Meta, Gate;
    NoOps(s);
    var key := ItemKey(loc, name);
    var current := s.entries[key.AsPath()];
    var merged := edit(current.value).value;
    e := s.Update(key, SetTypeMeta(merged, res), Some(current.modRevision)).1.value;
    WireShows(e);
    SetTypeMetaKeepsGate(merged, res);
    SameGate(merged, SetTypeMeta(merged, res));
    hide SetTypeMeta;
  }

  /**
   * A PATCH is applied to the very version it was computed from: if that is
   * still there when it writes, whatever else was written, it is as if it had
   * just been read; if not, the PATCH is refused and writes nothing.
   */
  lemma RacedPatch(s: Store, loc: Loc, res: Resolved, name: string, edit: Value -> Option<Value>, racing: seq<Op>)
    requires s.Valid() && res.namespaced == loc.namespace.Some? && PathOfRequest(loc, name) in s.entries
    requires edit(s.entries[PathOfRequest(loc, name)].value).Some?
    ensures
      var path := PathOfRequest(loc, name);
      var at := AfterOps(s, racing);
      PatchedAmid(s, loc, res, name, edit, racing) ==
      if at.Get(path) == s.Get(path) then Patched(at, loc, res, name, edit)
      else (at, StoreSays(if path in at.entries then Conflict else NotFound))
  {
    hide SetTypeMeta, DeletionFinalized, Wire, Key.AsPath, AfterOps, Replay, Tombstones, Recorded;
    var path := PathOfRequest(loc, name);
    LiveIsRecorded(s, path);
    RecordStays(s, racing, path, s.entries[path]);
    NoOps(AfterOps(s, racing));
    MovedRevision(AfterOps(s, racing), path, s.entries[path]);
  }

  /** A live entry that is not the recorded one is at another revision. */
  lemma MovedRevision(s: Store, path: string, e: Entry)
    requires s.Valid() && Recorded(s, path, e)
    ensures path in s.entries && s.entries[path] != e ==> s.entries[path].modRevision != e.modRevision
  {
    if path in s.entries && s.entries[path].modRevision == e.modRevision {
      SameRevisionSameEntry(s, path, e);
    }
  }

  // --- DELETE -------------------------------------------------------------------------------------

  /** What a DELETE that is not refused answers with: the version it stamped or removed, with the type of the path. */
  lemma DeleteAnswers(s: Store, loc: Loc, res: Resolved, name: string, resourceVersion: Option<string>,
          policy: Option<string>, now: nat)
    ensures
      var path := PathOfRequest(loc, name);
      var (next, reply) := Deleted(s, loc, res, name, resourceVersion, policy, now);
      if res.namespaced != loc.namespace.Some? then (next, reply) == (s, NoSuchResource)
      else if path !in s.entries then (next, reply) == (s, NoSuchObject)
      else reply.Done? || (next, reply) == (s, StoreSays(Conflict))
  {
    hide HasFinalizers, Stamped, SetDeletionTimestamp, MergeAnnotation, Wire, SetTypeMeta, NowRfc3339, Key.AsPath,
      ParseU64;
    NoOps(s);
    var key := ItemKey(loc, name);
    if key.AsPath() in s.entries {
      var marked := s.Update(key, MergeAnnotation(s.entries[key.AsPath()].value, ORPHAN_MARK, "Orphan"),
        Some(s.entries[key.AsPath()].modRevision)).0;
      NoOps(marked);
    }
  }

  /** A list of finalizers that holds an object: a list, and not an empty one. */
  predicate Holds(finalizers: Option<Value>) {
    finalizers.Some? && finalizers.value.Array? && finalizers.value.items != []
  }

  /**
   * What a granted DELETE does. An object that nothing holds is gone, in one
   * write or, orphaned, in two. One that something holds is stamped with the
   * time, and nothing else about it changes; if it is stamped already nothing
   * changes at all. The answer shows the version stamped or removed.
   */
  lemma DeleteStores(s: Store, loc: Loc, res: Resolved, name: string, resourceVersion: Option<string>,
          policy: Option<string>, now: nat) returns (shown: Entry)
    requires Deleted(s, loc, res, name, resourceVersion, policy, now).1.Done?
    ensures
      var path := PathOfRequest(loc, name);
      var (next, reply) := Deleted(s, loc, res, name, resourceVersion, policy, now);
      && path in s.entries
      && var v := s.entries[path].value;
         if !Holds(Meta(v, "finalizers")) then
           && path !in next.entries && next.revision == s.revision + (if policy == Some("Orphan") then 2 else 1)
           && next.log[|next.log| - 1..] == [Delete(path, next.revision, Some(shown))]
         else if Meta(v, "deletionTimestamp").Some? then next == s && shown == s.entries[path]
         else
           && next == s.Write(shown) && Succeeds(s.entries[path], shown, path, s.revision + 1)
           && Meta(shown.value, "deletionTimestamp") == Some(String(NowRfc3339(now)))
           && (forall k :: k != "metadata" ==> shown.value.Get(k) == v.Get(k))
           && (forall k :: k != "deletionTimestamp" ==> Meta(shown.value, k) == Meta(v, k))
    ensures ShowsTyped(Deleted(s, loc, res, name, resourceVersion, policy, now).1.body, shown, res)
  {
    hide SetDeletionTimestamp, MergeAnnotation, Wire, SetTypeMeta, NowRfc3339, Key.AsPath, ParseU64, HasFinalizers,
      Stamped, Meta;
    var key := ItemKey(loc, name);
    NoOps(s);
    var current := s.entries[key.AsPath()];
    GateReads(current.value);
    var stamped := SetDeletionTimestamp(current.value, NowRfc3339(now));
    var cas := if resourceVersion.Some? then ParseU64(resourceVersion.value) else None;
    var marked := s.Update(key, MergeAnnotation(current.value, ORPHAN_MARK, "Orphan"), Some(current.modRevision));
    NoOps(marked.0);
    if HasFinalizers(current.value) {
      StampKeepsRest(current.value, NowRfc3339(now));
      var r := s.Update(key, stamped, Some(if cas.Some? then cas.value else current.modRevision)).1;
      shown := if Stamped(current.value) then current else r.value;
    } else {
      shown := if policy == Some("Orphan") then marked.1.value else current;
    }
    TypedShows(shown, res);
  }

  /** As `Shows`, with the type of the path. */
  ghost predicate ShowsTyped(body: Value, e: Entry, res: Resolved) {
    HasMeta(e.value) && e.modRevision < U64_LIMIT ==>
      && ResourceVersion(body) == Some(e.modRevision)
      && (forall k :: k !in {"metadata", "apiVersion", "kind"} ==> body.Get(k) == e.value.Get(k))
      && (forall k :: k != "resourceVersion" ==> Meta(body, k) == Meta(e.value, k))
      && body.Get("apiVersion") == Some(String(res.apiVersion)) && body.Get("kind") == Some(String(res.kind))
  }

  lemma TypedShows(e: Entry, res: Resolved)
    ensures ShowsTyped(SetTypeMeta(Wire(e), res), e, res)
  {
    hide Meta, StrAt;
    if HasMeta(e.value) && e.modRevision < U64_LIMIT {
      WireShows(e);
      MetaAfterSet(e.value, "resourceVersion", Decimal(e.modRevision));
      MetaAfterType(Wire(e), res);
      SameMetadataReads(Wire(e), SetTypeMeta(Wire(e), res));
    }
  }

  lemma SameMetadataReads(v: Value, w: Value)
    requires v.Get("metadata") == w.Get("metadata")
    ensures ResourceVersion(v) == ResourceVersion(w)
  {
    TwoSteps(v, "metadata");
    TwoSteps(w, "metadata");
  }

  lemma GateReads(v: Value)
    ensures HasFinalizers(v) <==> Holds(Meta(v, "finalizers"))
    ensures Stamped(v) <==> Meta(v, "deletionTimestamp").Some?
  {
    TwoSteps(v, "metadata");
  }

  lemma StampKeepsRest(v: Value, ts: string)
    requires HasFinalizers(v)
    ensures
      var w := SetDeletionTimestamp(v, ts);
      && Meta(w, "deletionTimestamp") == Some(String(ts))
      && (forall k :: k != "metadata" ==> w.Get(k) == v.Get(k))
      && (forall k :: k != "deletionTimestamp" ==> Meta(w, k) == Meta(v, k))
  {
    GateReads(v);
    MetaAfterSet(v, "deletionTimestamp", ts);
  }

  /**
   * The orphan mark is an annotation beside the others, and changes nothing
   * else; a body that cannot hold one is left as it is.
   */
  lemma MarkKeepsRest(v: Value)
    requires CanBeMarked(v)
    ensures
      var w := MergeAnnotation(v, ORPHAN_MARK, "Orphan");
      && Annotation(w, "init-pro.io/deletion-propagation") == Some(String("Orphan"))
      && (forall k :: k != "metadata" ==> w.Get(k) == v.Get(k))
      && (forall k :: k != "annotations" ==> Meta(w, k) == Meta(v, k))
      && (forall k :: k != "init-pro.io/deletion-propagation" ==> Annotation(w, k) == Annotation(v, k))
  {
  }

  function Annotation(v: Value, key: string): Option<Value> {
    match Meta(v, "annotations")
    case None => None
    case Some(notes) => notes.Get(key)
  }

  /**
   * A DELETE of an object with finalizers stamps the very version it read, and
   * an orphaning one marks it: if somebody wrote meanwhile it is refused, unless
   * it asked for a revision of its own, which then decides alone.
   */
  lemma RacedDelete(s: Store, loc: Loc, res: Resolved, name: string, policy: Option<string>, now: nat, racing: seq<Op>,
          between: seq<Op>)
    requires s.Valid() && res.namespaced == loc.namespace.Some? && PathOfRequest(loc, name) in s.entries
    requires
      var v := s.entries[PathOfRequest(loc, name)].value;
      (HasFinalizers(v) && !Stamped(v)) || (!HasFinalizers(v) && policy == Some("Orphan"))
    requires AfterOps(s, racing).Get(PathOfRequest(loc, name)) != s.Get(PathOfRequest(loc, name))
    ensures
      var at := AfterOps(s, racing);
      DeletedAmid(s, loc, res, name, None, policy, now, racing, between)
      == (at, StoreSays(if PathOfRequest(loc, name) in at.entries then Conflict else NotFound))
  {
    hide HasFinalizers, Stamped, SetDeletionTimestamp, MergeAnnotation, Wire, SetTypeMeta, NowRfc3339, Key.AsPath,
      AfterOps, Replay, Tombstones, Recorded;
    var path := PathOfRequest(loc, name);
    LiveIsRecorded(s, path);
    RecordStays(s, racing, path, s.entries[path]);
    MovedRevision(AfterOps(s, racing), path, s.entries[path]);
  }

  /**
   * An orphaning DELETE removes the very version it marked: if somebody wrote
   * after the mark, the object stays as that writer left it.
   */
  lemma RacedOrphan(s: Store, loc: Loc, res: Resolved, name: string, now: nat, between: seq<Op>)
    requires s.Valid() && res.namespaced == loc.namespace.Some? && PathOfRequest(loc, name) in s.entries
    requires !HasFinalizers(s.entries[PathOfRequest(loc, name)].value)
    ensures
      var path := PathOfRequest(loc, name);
      var v := MergeAnnotation(s.entries[path].value, ORPHAN_MARK, "Orphan");
      var marked := DoUpdate(ItemKey(loc, name), v, Some(s.entries[path].modRevision));
      var at := AfterOps(Apply(s, marked), between);
      var (next, reply) := DeletedAmid(s, loc, res, name, None, Some("Orphan"), now, [], between);
      if at.Get(path) == Apply(s, marked).Get(path) then reply.Done? && next == at.Remove(ItemKey(loc, name), None).0
      else (next, reply) == (at, if path in at.entries then StoreSays(Conflict) else NoSuchObject)
  {
    hide HasFinalizers, Stamped, SetDeletionTimestamp, MergeAnnotation, Wire, SetTypeMeta, NowRfc3339, Key.AsPath,
      AfterOps, Replay, Tombstones, Recorded;
    NoOps(s);
    var path, key := PathOfRequest(loc, name), ItemKey(loc, name);
    var v := MergeAnnotation(s.entries[path].value, ORPHAN_MARK, "Orphan");
    var marked := Apply(s, DoUpdate(key, v, Some(s.entries[path].modRevision)));
    ApplyKeepsValid(s, DoUpdate(key, v, Some(s.entries[path].modRevision)));
    LiveIsRecorded(marked, path);
    RecordStays(marked, between, path, marked.entries[path]);
    MovedRevision(AfterOps(marked, between), path, marked.entries[path]);
  }

  // --- POST -----------------------------------------------------------------------------------------

  /** What a create of anything but a Service answers, in every case. */
  lemma CreateAnswers(s: Store, req: Request)
    requires req.CreateObject? && req.res.kind != "Service"
    ensures
      var own, prefix := StrAt(req.body, ["metadata", "name"]), StrAt(req.body, ["metadata", "generateName"]);
      var name := if own.Some? then own.value else OrEmpty(prefix) + req.suffix;
      var path := PathOfRequest(req.loc, name);
      var (next, reply) := Handle(s, req);
      if req.res.namespaced != req.loc.namespace.Some? then (next, reply) == (s, NoSuchResource)
      else if own.None? && OrEmpty(prefix) == "" then (next, reply) == (s, Invalid)
      else if name == "" || req.loc.resource == "" then (next, reply) == (s, StoreSays(InvalidKey))
      else if path in s.entries then (next, reply) == (s, StoreSays(AlreadyExists))
      else reply.Done? && path in next.entries && Shows(reply.body, next.entries[path])
  {
    hide Prepared, Wire, HealedFrom, Key.AsPath;
    NoOps(s);
    var name := NameFor(req.body, req.suffix);
    var path := PathOfRequest(req.loc, name);
    if Handle(s, req).1.Done? {
      WireShows(Handle(s, req).0.entries[path]);
    }
  }

  /** A create of a Service is refused besides that exactly if its ports do not pass. */
  lemma ServiceCreateAnswers(s: Store, req: Request)
    requires req.CreateObject? && req.res.kind == "Service" && req.res.namespaced == req.loc.namespace.Some?
    requires StrAt(req.body, ["metadata", "name"]).Some? && StrAt(req.body, ["metadata", "name"]).value != ""
    requires req.loc.resource != "" && CreatedPath(req) !in s.entries
    ensures
      var used := if req.listed then HeldIn(s.entries) else {};
      var ports := SpecPorts(req.body);
      var refused := IsNodePortType(req.body) && exists i :: 0 <= i < |ports| && !Passes(ports, used, i);
      if refused then Handle(s, req) == (s, Invalid) else Handle(s, req).1.Done?
  {
    hide Prepared, Wire, HealedFrom, Key.AsPath, DefaultedService, Passes, IsNodePortType, SpecPorts, HeldIn, StrAt,
      GeneratePrefix, Progress;
    NoOps(s);
    var used := if req.listed then HeldIn(s.entries) else {};
    PreparedSpec(req.loc, req.res, req.body, NameFor(req.body, req.suffix), req.uid);
    SameSpec(PreparedFor(req), req.body);
    DefaultedShape(PreparedFor(req), used);
    PassesExactly(SpecPorts(req.body), used);
  }

  /**
   * What a granted create keeps of the body it was sent: everything but the
   * type, the name, namespace and uid (`CreatedObject` says what those are), the
   * finalizers of a Namespace that has none, which become `kubernetes`, and the
   * `spec` of a Service. It is the first version of its object.
   */
  lemma CreateStores(s: Store, req: Request)
    requires req.CreateObject? && Handle(s, req).1.Done? && req.res.kind != "Service"
    ensures
      var path, next := CreatedPath(req), Handle(s, req).0;
      && path in next.entries && next.log == s.log + [Put(next.entries[path])]
      && var e := next.entries[path];
         && e.createRevision == e.modRevision == s.revision + 1 && e.version == 1
         && (forall k :: k !in {"apiVersion", "kind", "metadata"} ==> e.value.Get(k) == req.body.Get(k))
         && (forall k :: k !in {"name", "namespace", "uid", "finalizers"} ==> Meta(e.value, k) == Meta(req.body, k))
         && (NameOf(req.body).Some? ==> Meta(e.value, "name") == Meta(req.body, "name"))
         && (req.loc.namespace.None? ==> Meta(e.value, "namespace") == Meta(req.body, "namespace"))
         && Meta(e.value, "finalizers") ==
            if req.res.kind == "Namespace" && !Holds(Meta(req.body, "finalizers"))
            then Some(Array([String("kubernetes")])) else Meta(req.body, "finalizers")
  {
    hide Prepared, Wire, HealedFrom, Key.AsPath, NameOf, GeneratePrefix, Meta, Holds;
    NamedRequest(s, req);
    NoOps(s);
    PreparedRest(req.loc, req.res, req.body, NameFor(req.body, req.suffix), req.uid);
  }

  lemma PreparedRest(loc: Loc, res: Resolved, body: Value, name: string, uid: string)
    requires NameOf(body).Some? || GeneratePrefix(body) != ""
    ensures
      var v := Prepared(loc, res, body, name, uid);
      && (forall k :: k !in {"apiVersion", "kind", "metadata"} ==> v.Get(k) == body.Get(k))
      && (forall k :: k !in {"name", "namespace", "uid", "finalizers"} ==> Meta(v, k) == Meta(body, k))
      && (NameOf(body).Some? ==> Meta(v, "name") == Meta(body, "name"))
      && (loc.namespace.None? ==> Meta(v, "namespace") == Meta(body, "namespace"))
      && Meta(v, "finalizers") ==
         if res.kind == "Namespace" && !Holds(Meta(body, "finalizers"))
         then Some(Array([String("kubernetes")])) else Meta(body, "finalizers")
  {
    hide SetMeta, SetTypeMeta, EnsureUid, EnsureNamespaceFinalizer, NameOf, NamespaceIn, GeneratePrefix, StrAt, Meta,
      Holds, HasFinalizers;
    MetaIs(body);
    var named := if NameOf(body).None? then SetMeta(body, "name", name) else body;
    MetaAfterSet(body, "name", name);
    MetaAfterType(named, res);
    var typed := SetTypeMeta(named, res);
    var placed := if loc.namespace.Some? then SetMeta(typed, "namespace", loc.namespace.value) else typed;
    MetaAfterSet(typed, "namespace", OrEmpty(loc.namespace));
    NameIsThere(body, name);
    HasSome(placed);
    MetaAfterUid(placed, uid);
    TypeKeepsRest(named, res);
    FinalizerIs(EnsureUid(placed, uid));
  }

  lemma NameIsThere(body: Value, name: string)
    ensures NameOf(body).Some? ==> Meta(body, "name").Some?
  {
    MetaIs(body);
  }

  lemma TypeKeepsRest(v: Value, res: Resolved)
    ensures forall k :: k !in {"apiVersion", "kind"} ==> SetTypeMeta(v, res).Get(k) == v.Get(k)
  {
  }

  lemma FinalizerIs(v: Value)
    requires HasMeta(v)
    ensures
      var w := EnsureNamespaceFinalizer(v);
      && (forall k :: k != "metadata" ==> w.Get(k) == v.Get(k))
      && (forall k :: k != "finalizers" ==> Meta(w, k) == Meta(v, k))
      && Meta(w, "finalizers") ==
         if Holds(Meta(v, "finalizers")) then Meta(v, "finalizers") else Some(Array([String("kubernetes")]))
  {
    GateReads(v);
  }
}
