// The delete state machine over every run of requests: nothing finished lingers,
// nothing gated is removed, and repeating a DELETE changes nothing.
module FinalizerLaws {
  import opened Options
  import opened Json
  import opened Text
  import opened Storage
  import opened Objects
  import opened Time
  import opened NodePorts
  import opened Healing
  import opened ApiServer

  // --- What the body helpers leave alone ---------------------------------------------------

  /** The members of `metadata` that gate a deletion. */
  function Gate(v: Value): (Option<Value>, Option<Value>) {
    (v.Pointer(["metadata", "finalizers"]), v.Pointer(["metadata", "deletionTimestamp"]))
  }

  lemma SetMetaKeepsGate(v: Value, key: string, value: string)
    requires key !in ["finalizers", "deletionTimestamp"]
    ensures Gate(SetMeta(v, key, value)) == Gate(v)
  {
  }

  lemma SetTypeMetaKeepsGate(v: Value, res: Resolved)
    ensures Gate(SetTypeMeta(v, res)) == Gate(v)
  {
  }

  lemma AnnotationKeepsGate(v: Value, key: string, value: string)
    ensures Gate(MergeAnnotation(v, key, value)) == Gate(v)
  {
  }

  lemma StampIs(v: Value, ts: string)
    requires HasFinalizers(v)
    ensures HasFinalizers(SetDeletionTimestamp(v, ts)) && Stamped(SetDeletionTimestamp(v, ts))
    ensures StrAt(SetDeletionTimestamp(v, ts), ["metadata", "deletionTimestamp"]) == Some(ts)
  {
  }

  lemma SameGate(v: Value, w: Value)
    requires Gate(v) == Gate(w)
    ensures HasFinalizers(v) == HasFinalizers(w) && Stamped(v) == Stamped(w)
    ensures DeletionFinalized(v) == DeletionFinalized(w)
  {
  }

  /** A create stores the gate it was sent, except that a Namespace is never without finalizers. */
  lemma PreparedGate(loc: Loc, res: Resolved, body: Value, name: string, uid: string)
    ensures Stamped(Prepared(loc, res, body, name, uid)) == Stamped(body)
    ensures DeletionFinalized(Prepared(loc, res, body, name, uid))
       <==> Stamped(body) && !HasFinalizers(body) && res.kind != "Namespace"
    ensures res.kind != "Namespace" ==> Gate(Prepared(loc, res, body, name, uid)) == Gate(body)
  {
    hide SetMeta, SetTypeMeta, HasFinalizers, Stamped, Gate, NameOf;
    var named := if NameOf(body).None? then SetMeta(body, "name", name) else body;
    var typed := SetTypeMeta(named, res);
    var placed := if loc.namespace.Some? then SetMeta(typed, "namespace", loc.namespace.value) else typed;
    var identified := EnsureUid(placed, uid);
    SetMetaKeepsGate(body, "name", name);
    SetTypeMetaKeepsGate(named, res);
    SetMetaKeepsGate(typed, "namespace", OrEmpty(loc.namespace));
    SetMetaKeepsGate(placed, "uid", uid);
    assert Gate(identified) == Gate(body);
    SameGate(identified, body);
    NamespaceGate(identified);
  }

  lemma NamespaceGate(v: Value)
    ensures Stamped(EnsureNamespaceFinalizer(v)) == Stamped(v)
    ensures Stamped(v) ==> HasFinalizers(EnsureNamespaceFinalizer(v))
  {
  }

  // --- Requests ---------------------------------------------------------------------------------

  /** `listed` and `relisted` are whether the listings before and after the create of a Service succeed. */
  datatype Request =
    | CreateObject(loc: Loc, res: Resolved, body: Value, suffix: string, uid: string, listed: bool, relisted: bool)
    | ReplaceObject(loc: Loc, res: Resolved, name: string, body: Value)
    | PatchObject(loc: Loc, res: Resolved, name: string, edit: Value -> Option<Value>)
    | DeleteObject(loc: Loc, res: Resolved, name: string, resourceVersion: Option<string>,
                   policy: Option<string>, now: nat)

  function Handle(s: Store, req: Request): (Store, Reply) {
    match req
    case CreateObject(loc, res, body, suffix, uid, listed, relisted) =>
      Created(s, loc, res, body, suffix, uid, listed, relisted)
    case ReplaceObject(loc, res, name, body) => Replaced(s, loc, res, name, body)
    case PatchObject(loc, res, name, edit) => Patched(s, loc, res, name, edit)
    case DeleteObject(loc, res, name, rv, policy, now) => Deleted(s, loc, res, name, rv, policy, now)
  }

  /** The requests after which nothing finished can be stored: creates do not bring a finished deletion along. */
  ghost predicate Admissible(req: Request) {
    req.CreateObject? ==> !(Stamped(req.body) && !HasFinalizers(req.body) && req.res.kind != "Namespace")
  }

  ghost predicate NothingFinished(s: Store) {
    forall path :: path in s.entries ==> !DeletionFinalized(s.entries[path].value)
  }

  /** Every removed object had no finalizers when it was removed. */
  ghost predicate RemovalsAreClean(log: seq<Event>) {
    forall i :: 0 <= i < |log| && log[i].Delete? ==> log[i].prev.Some? && !HasFinalizers(log[i].prev.value.value)
  }

  ghost predicate Inv(s: Store) {
    s.Valid() && NothingFinished(s) && RemovalsAreClean(s.log)
  }

  lemma PutKeeps(s: Store, entry: Entry)
    requires NothingFinished(s) && RemovalsAreClean(s.log)
    ensures RemovalsAreClean(s.Write(entry).log)
    ensures NothingFinished(s.Write(entry)) <==> !DeletionFinalized(entry.value)
  {
    hide DeletionFinalized, HasFinalizers;
    var next := s.Write(entry);
    assert entry.key in next.entries;
  }

  lemma RemoveKeeps(s: Store, key: Key, ifRevision: Option<nat>)
    requires s.Valid() && RemovalsAreClean(s.log)
    requires forall path :: path in s.entries && path != key.AsPath() ==> !DeletionFinalized(s.entries[path].value)
    requires key.AsPath() in s.entries ==> !HasFinalizers(s.entries[key.AsPath()].value)
    ensures
      var (next, r) := s.Remove(key, ifRevision);
      && next.Valid() && RemovalsAreClean(next.log)
      && (key.AsPath() !in next.entries ==> NothingFinished(next)) && (r.Ok? ==> key.AsPath() !in next.entries)
  {
    hide DeletionFinalized, HasFinalizers;
    ApplyKeepsValid(s, DoRemove(key, ifRevision));
  }

  /** An update and its finalizing delete: the object stays exactly if it is not finished. */
  lemma WrittenKeeps(s: Store, key: Key, body: Value, ifRevision: Option<nat>)
    requires Inv(s)
    ensures Inv(Written(s, key, body, ifRevision).0)
    ensures Written(s, key, body, ifRevision).1.Done? ==>
      (key.AsPath() in Written(s, key, body, ifRevision).0.entries <==> !DeletionFinalized(body))
  {
    hide DeletionFinalized, Wire;
    ApplyKeepsValid(s, DoUpdate(key, body, ifRevision));
    var (next, r) := s.Update(key, body, ifRevision);
    if r.Ok? {
      PutKeeps(s, r.value);
      if DeletionFinalized(body) {
        FinishedIsOpen(body);
        RemoveKeeps(next, key, None);
      }
    }
  }

  lemma FinishedIsOpen(v: Value)
    requires DeletionFinalized(v)
    ensures !HasFinalizers(v)
  {
  }

  // --- Creates, with the heal that follows one of a Service ----------------------------------------

  /** The body of a create before a Service is numbered. */
  function PreparedFor(req: Request): Value
    requires req.CreateObject?
  {
    Prepared(req.loc, req.res, req.body, NameFor(req.body, req.suffix), req.uid)
  }

  /** Only the `spec` may differ. */
  predicate SameRest(v: Value, w: Value) {
    v.Object? == w.Object? && (v.Object? ==> v.fields - {"spec"} == w.fields - {"spec"})
  }

  lemma SameRestIs(v: Value, w: Value)
    requires SameRest(v, w)
    ensures forall k :: k != "spec" ==> v.Get(k) == w.Get(k)
    ensures Gate(v) == Gate(w) && forall k :: Meta(v, k) == Meta(w, k)
  {
    forall k | k != "spec" ensures v.Get(k) == w.Get(k) {
      if v.Object? {
        assert k in v.fields - {"spec"} <==> k in v.fields;
        assert k in w.fields - {"spec"} <==> k in w.fields;
      }
    }
    TwoSteps(v, "metadata");
    TwoSteps(w, "metadata");
  }

  /** Defaulting a Service, and dropping its numbers, touches nothing but its `spec`. */
  lemma DefaultedKeepsRest(v: Value, used: set<Pair>)
    ensures SameRest(DefaultedService(v, used).body, v)
  {
    hide Progress, FilledAll, Elements, TypedSpec, TypeOf;
  }

  lemma HealedKeepsRest(v: Value, foreign: set<Pair>)
    ensures SameRest(Healed(v, foreign).body, v)
  {
    hide DefaultedService, DroppedAll;
    DefaultedKeepsRest(Dropped(v, foreign), foreign);
  }

  /** The versions a create writes: the one it makes, and for a Service perhaps a healed one. */
  lemma CreatedStores(s: Store, req: Request) returns (first: Entry, last: Entry)
    requires req.CreateObject? && Handle(s, req).1.Done?
    ensures CreatedPath(req) !in s.entries && first.key == last.key == CreatedPath(req)
    ensures
      var ready := Allocated(s, req.res, PreparedFor(req), req.listed);
      ready.error.None? && first == Entry(CreatedPath(req), ready.body, s.revision + 1, s.revision + 1, 1)
    ensures
      var foreign := HeldByOthers(s.entries, CreatedPath(req));
      var healed := Healed(first.value, foreign);
      last ==
      if req.res.kind == "Service" && req.relisted && !(NodePortsOf(first.value) !! foreign) && healed.error.None?
      then first.(value := healed.body, modRevision := s.revision + 2, version := 2) else first
    ensures
      Handle(s, req) == (if last == first then s.Write(first) else s.Write(first).Write(last), Done(Wire(last)))
    ensures SameRest(first.value, PreparedFor(req)) && SameRest(last.value, PreparedFor(req))
  {
    hide Prepared, Wire, DefaultedService, Healed, NodePortsOf, HeldIn, HeldByOthers, HealedFrom, NameOf,
      GeneratePrefix, SameRest;
    var key := ItemKey(req.loc, NameFor(req.body, req.suffix));
    var (next, made) := Made(s, req.loc, req.res, req.body, req.suffix, req.uid, req.listed, []);
    NoOps(s);
    first := made.value;
    last := first;
    var foreign := HeldByOthers(s.entries, key.AsPath());
    AllocatedKeepsRest(s, req);
    if req.res.kind == "Service" {
      HealAlone(next, key, first, Alone(req.relisted));
      OthersAsBefore(s, first);
      last := HealedFrom(next, key, first, Alone(req.relisted)).1;
      HealedKeepsRest(first.value, foreign);
      RestOfRest(Healed(first.value, foreign).body, first.value, PreparedFor(req));
    }
  }

  lemma AllocatedKeepsRest(s: Store, req: Request)
    requires req.CreateObject?
    ensures SameRest(Allocated(s, req.res, PreparedFor(req), req.listed).body, PreparedFor(req))
  {
    hide DefaultedService, SameRest;
    DefaultedKeepsRest(PreparedFor(req), if req.listed then HeldIn(s.entries) else {});
    assert SameRest(PreparedFor(req), PreparedFor(req)) by { RestOfItself(PreparedFor(req)); }
  }

  lemma RestOfItself(v: Value)
    ensures SameRest(v, v)
  {
  }

  lemma RestOfRest(u: Value, v: Value, w: Value)
    requires SameRest(u, v) && SameRest(v, w)
    ensures SameRest(u, w)
  {
  }

  lemma RefusedCreate(s: Store, req: Request)
    requires req.CreateObject? && !Handle(s, req).1.Done?
    ensures Handle(s, req).0 == s
  {
    hide Prepared, Wire, Allocated, HealedFrom, NameOf, GeneratePrefix;
    NoOps(s);
  }

  lemma CreatedKeeps(s: Store, req: Request)
    requires Inv(s) && req.CreateObject?
    ensures var next := Handle(s, req).0; next.Valid() && RemovalsAreClean(next.log)
    ensures Handle(s, req).1.Done? ==> (Inv(Handle(s, req).0) <==> Admissible(req))
    ensures !Handle(s, req).1.Done? ==> Handle(s, req).0 == s
  {
    hide DeletionFinalized, Wire, Prepared, Allocated, HasFinalizers, Stamped, Gate, NameFor, Replay, Tombstones,
      Handle, SameRest, NodePortsOf, Healed, HeldByOthers;
    if Handle(s, req).1.Done? {
      var first, last := CreatedStores(s, req);
      PreparedGate(req.loc, req.res, req.body, NameFor(req.body, req.suffix), req.uid);
      SameRestIs(first.value, PreparedFor(req));
      SameRestIs(last.value, PreparedFor(req));
      SameGate(first.value, PreparedFor(req));
      SameGate(last.value, PreparedFor(req));
      var key := ItemKey(req.loc, NameFor(req.body, req.suffix));
      WriteKeepsValid(s, first);
      PutKeeps(s, first);
      if last != first {
        WriteKeepsValid(s.Write(first), last);
        PutTwice(s, first, last);
      }
    } else {
      RefusedCreate(s, req);
    }
  }

  lemma WriteKeepsValid(s: Store, e: Entry)
    requires s.Valid() && e.modRevision == s.revision + 1
    ensures s.Write(e).Valid()
  {
    assert s.Write(e).log[..|s.log|] == s.log;
    TombstonesSnoc(s.log, Put(e));
  }

  /** Two writes of one object in a row leave the last. */
  lemma PutTwice(s: Store, first: Entry, last: Entry)
    requires NothingFinished(s) && RemovalsAreClean(s.log) && first.key == last.key
    ensures RemovalsAreClean(s.Write(first).Write(last).log)
    ensures NothingFinished(s.Write(first).Write(last)) <==> !DeletionFinalized(last.value)
  {
    hide DeletionFinalized, HasFinalizers;
    assert last.key in s.Write(first).Write(last).entries;
  }

  lemma SoftDeletedKeeps(s: Store, res: Resolved, key: Key, current: Entry, cas: Option<nat>, now: nat)
    requires Inv(s) && s.Get(key.AsPath()) == Some(current) && HasFinalizers(current.value)
    ensures
      var next := SoftDeleted(s, res, key, current, cas, now).0;
      Inv(next) && key.AsPath() in next.entries && HasFinalizers(next.entries[key.AsPath()].value)
  {
    hide RemovedReply, NowRfc3339, SetDeletionTimestamp, HasFinalizers;
    var body := SetDeletionTimestamp(current.value, NowRfc3339(now));
    var rev := Some(if cas.Some? then cas.value else current.modRevision);
    ApplyKeepsValid(s, DoUpdate(key, body, rev));
    StampIs(current.value, NowRfc3339(now));
    var (next, r) := s.Update(key, body, rev);
    if r.Ok? {
      PutKeeps(s, r.value);
    }
  }

  lemma OrphanDeletedKeeps(s: Store, res: Resolved, key: Key, current: Entry)
    requires Inv(s) && s.Get(key.AsPath()) == Some(current) && !HasFinalizers(current.value)
    ensures
      var (next, reply) := OrphanDeleted(s, res, key, current, []);
      Inv(next) && reply.Done? && key.AsPath() !in next.entries
  {
    hide Wire, SetTypeMeta, MergeAnnotation, HasFinalizers, Stamped;
    var body := MergeAnnotation(current.value, ORPHAN_MARK, "Orphan");
    AnnotationKeepsGate(current.value, ORPHAN_MARK, "Orphan");
    SameGate(current.value, body);
    ApplyKeepsValid(s, DoUpdate(key, body, Some(current.modRevision)));
    var (marked, r) := s.Update(key, body, Some(current.modRevision));
    PutKeeps(s, r.value);
    RemoveKeeps(marked, key, Some(r.value.modRevision));
  }

  lemma DeletedKeeps(s: Store, req: Request)
    requires Inv(s) && req.DeleteObject?
    ensures Inv(Handle(s, req).0)
  {
    hide HasFinalizers, SoftDeleted, OrphanDeleted, RemovedReply;
    var key := ItemKey(req.loc, req.name);
    var found := s.Get(key.AsPath());
    if ScopeFits(req.loc, req.res) && found.Some? {
      var cas := if req.resourceVersion.Some? then ParseU64(req.resourceVersion.value) else None;
      if HasFinalizers(found.value.value) {
        SoftDeletedKeeps(s, req.res, key, found.value, cas, req.now);
      } else if req.policy == Some("Orphan") {
        OrphanDeletedKeeps(s, req.res, key, found.value);
      } else {
        RemoveKeeps(s, key, cas);
      }
    }
  }

  lemma HandleKeeps(s: Store, req: Request)
    requires Inv(s) && Admissible(req)
    ensures Inv(Handle(s, req).0)
  {
    hide Inv, Written, Deleted, Created, Admissible;
    match req {
      case CreateObject(_, _, _, _, _, _, _) =>
        CreatedKeeps(s, req);
      case ReplaceObject(loc, res, name, body) =>
        ReplaceKeeps(s, req);
      case PatchObject(loc, res, name, edit) =>
        PatchKeeps(s, req);
      case DeleteObject(_, _, _, _, _, _) =>
        DeletedKeeps(s, req);
    }
  }

  lemma ReplaceKeeps(s: Store, req: Request)
    requires Inv(s) && req.ReplaceObject?
    ensures Inv(Handle(s, req).0)
  {
    hide Written, Inv, SetMeta, SetTypeMeta;
    var typed := SetTypeMeta(req.body, req.res);
    var placed := PlacedIn(req.loc, typed);
    WrittenKeeps(s, ItemKey(req.loc, req.name), placed, ResourceVersion(req.body));
  }

  lemma PatchKeeps(s: Store, req: Request)
    requires Inv(s) && req.PatchObject?
    ensures Inv(Handle(s, req).0)
  {
    hide Written, Inv, SetTypeMeta;
    var found := s.Get(ItemKey(req.loc, req.name).AsPath());
    if found.Some? && req.edit(found.value.value).Some? {
      var merged := SetTypeMeta(req.edit(found.value.value).value, req.res);
      WrittenKeeps(s, ItemKey(req.loc, req.name), merged, Some(found.value.modRevision));
    }
  }

  // --- Over whole runs -----------------------------------------------------------------------------

  function HandleAll(reqs: seq<Request>): Store {
    if reqs == [] then EMPTY_STORE else Handle(HandleAll(reqs[..|reqs| - 1]), reqs[|reqs| - 1]).0
  }

  /**
   * Finalizer gating over every run of requests from the empty store: no stored
   * object is stamped without finalizers, and every object ever removed had no
   * finalizers when it was removed.
   */
  lemma {:induction false} GatingHolds(reqs: seq<Request>)
    requires forall i :: 0 <= i < |reqs| ==> Admissible(reqs[i])
    ensures Inv(HandleAll(reqs))
  {
    hide Handle, Admissible;
    if reqs == [] {
      assert EMPTY_STORE.Valid();
    } else {
      var front := reqs[..|reqs| - 1];
      assert forall i :: 0 <= i < |front| ==> front[i] == reqs[i];
      GatingHolds(front);
      HandleKeeps(HandleAll(front), reqs[|reqs| - 1]);
    }
  }

  /** The condition on creates is exact: a create that succeeds keeps the invariant if and only if it is admissible. */
  lemma OnlyCreatesCanBreak(s: Store, req: Request)
    requires Inv(s) && (req.CreateObject? ==> Handle(s, req).1.Done?)
    ensures Inv(Handle(s, req).0) <==> Admissible(req)
  {
    hide Created;
    if req.CreateObject? {
      CreatedKeeps(s, req);
    } else {
      HandleKeeps(s, req);
    }
  }

  // --- Single requests -----------------------------------------------------------------------------

  /** A repeated DELETE of a stamped object changes nothing, whatever its parameters. */
  lemma RepeatedDeleteChangesNothing(s: Store, req: Request)
    requires Inv(s) && req.DeleteObject? && ScopeFits(req.loc, req.res)
    requires ItemKey(req.loc, req.name).AsPath() in s.entries
    requires Stamped(s.entries[ItemKey(req.loc, req.name).AsPath()].value)
    ensures Handle(s, req).0 == s && Handle(s, req).1.Done?
  {
  }

  /** While an object has finalizers, DELETE stamps it and leaves it in place with its finalizers. */
  lemma DeleteIsGated(s: Store, req: Request)
    requires Inv(s) && req.DeleteObject? && ScopeFits(req.loc, req.res)
    requires ItemKey(req.loc, req.name).AsPath() in s.entries
    requires HasFinalizers(s.entries[ItemKey(req.loc, req.name).AsPath()].value)
    ensures
      var path := ItemKey(req.loc, req.name).AsPath();
      var (next, reply) := Handle(s, req);
      && path in next.entries && HasFinalizers(next.entries[path].value)
      && (reply.Done? ==> Stamped(next.entries[path].value))
      && (reply.Done? && !Stamped(s.entries[path].value) ==>
            StrAt(next.entries[path].value, ["metadata", "deletionTimestamp"]) == Some(NowRfc3339(req.now)))
  {
    hide HasFinalizers, SoftDeleted, Stamped, NowRfc3339;
    var key := ItemKey(req.loc, req.name);
    var cas := if req.resourceVersion.Some? then ParseU64(req.resourceVersion.value) else None;
    SoftDeletedKeeps(s, req.res, key, s.entries[key.AsPath()], cas, req.now);
    SoftDeleteStamps(s, req.res, key, s.entries[key.AsPath()], cas, req.now);
  }

  lemma SoftDeleteStamps(s: Store, res: Resolved, key: Key, current: Entry, cas: Option<nat>, now: nat)
    requires s.Get(key.AsPath()) == Some(current) && HasFinalizers(current.value)
    ensures
      var (next, reply) := SoftDeleted(s, res, key, current, cas, now);
      reply.Done? ==>
        && key.AsPath() in next.entries && Stamped(next.entries[key.AsPath()].value)
        && (!Stamped(current.value) ==>
              StrAt(next.entries[key.AsPath()].value, ["metadata", "deletionTimestamp"]) == Some(NowRfc3339(now)))
  {
    hide HasFinalizers, RemovedReply, NowRfc3339, SetDeletionTimestamp;
    StampIs(current.value, NowRfc3339(now));
  }

  /** The revision a DELETE asks for; a parameter that does not parse asks for none. */
  function AskedRevision(req: Request): Option<nat>
    requires req.DeleteObject?
  {
    if req.resourceVersion.Some? then ParseU64(req.resourceVersion.value) else None
  }

  /**
   * Which DELETEs are refused for their `resourceVersion`, for every parameter:
   * those that ask for a revision, which one that does not parse does not do,
   * and not for the live one, except of an object that is already stamped and
   * when orphaning an object without finalizers, where nobody looks.
   */
  lemma StaleDeleteExactly(s: Store, req: Request)
    requires Inv(s) && req.DeleteObject? && ScopeFits(req.loc, req.res)
    requires ItemKey(req.loc, req.name).AsPath() in s.entries
    ensures
      var current := s.entries[ItemKey(req.loc, req.name).AsPath()];
      var v := current.value;
      Handle(s, req) == (s, StoreSays(Conflict)) <==>
        && AskedRevision(req).Some? && AskedRevision(req).value != current.modRevision
        && !Stamped(v) && (HasFinalizers(v) || req.policy != Some("Orphan"))
  {
    hide Wire, SetTypeMeta, NowRfc3339, SetDeletionTimestamp, MergeAnnotation, ParseU64;
    var key := ItemKey(req.loc, req.name);
    var current := s.entries[key.AsPath()];
    if !HasFinalizers(current.value) && req.policy == Some("Orphan") {
      OrphanDeletedKeeps(s, req.res, key, current);
    }
    hide HasFinalizers, Stamped;
  }

  /** So a parameter that does not parse deletes exactly as no parameter does. */
  lemma UnparsedRevisionIsNone(s: Store, req: Request)
    requires req.DeleteObject? && AskedRevision(req).None?
    ensures Handle(s, req) == Handle(s, req.(resourceVersion := None))
  {
  }

  /** A stamp survives a PUT exactly if the new body carries one. */
  lemma ReplaceCanClearTheStamp(s: Store, req: Request)
    requires Inv(s) && req.ReplaceObject? && Handle(s, req).1.Done?
    ensures
      var path := ItemKey(req.loc, req.name).AsPath();
      var next := Handle(s, req).0;
      && (path in next.entries <==> !(Stamped(req.body) && !HasFinalizers(req.body)))
      && (path in next.entries ==> (Stamped(next.entries[path].value) <==> Stamped(req.body)))
  {
    hide SetMeta, SetTypeMeta, HasFinalizers, Stamped, Wire, Gate;
    var typed := SetTypeMeta(req.body, req.res);
    var placed := PlacedIn(req.loc, typed);
    SetTypeMetaKeepsGate(req.body, req.res);
    SetMetaKeepsGate(typed, "namespace", OrEmpty(req.loc.namespace));
    SameGate(req.body, placed);
    WrittenKeeps(s, ItemKey(req.loc, req.name), placed, ResourceVersion(req.body));
  }

  /** A body that can hold annotations. */
  predicate CanBeMarked(v: Value) {
    && HasMeta(v)
    && match v.Get("metadata")
       case None => true
       case Some(meta) => match meta.Get("annotations") { case None => true case Some(notes) => notes.Object? }
  }

  function Mark(v: Value): Option<string> {
    StrAt(v, ["metadata", "annotations", ORPHAN_MARK])
  }

  lemma MarkIs(v: Value)
    ensures CanBeMarked(v) ==> Mark(MergeAnnotation(v, ORPHAN_MARK, "Orphan")) == Some("Orphan")
    ensures !CanBeMarked(v) ==> MergeAnnotation(v, ORPHAN_MARK, "Orphan") == v
  {
    if CanBeMarked(v) {
      var w := MergeAnnotation(v, ORPHAN_MARK, "Orphan");
      var meta := w.fields["metadata"];
      var notes := meta.fields["annotations"];
      assert ["metadata", "annotations", ORPHAN_MARK][1..] == ["annotations", ORPHAN_MARK];
      assert ["annotations", ORPHAN_MARK][1..] == [ORPHAN_MARK] && [ORPHAN_MARK][1..] == [];
      assert notes.Pointer([ORPHAN_MARK]) == Some(String("Orphan"));
      assert meta.Pointer(["annotations", ORPHAN_MARK]) == Some(String("Orphan"));
    }
  }

  /**
   * An orphaning DELETE removes the object, and the deletion it logs shows the
   * orphan mark to whoever watches, if the body can hold one.
   */
  lemma OrphanDeleteIsMarked(s: Store, req: Request)
    requires Inv(s) && req.DeleteObject? && ScopeFits(req.loc, req.res) && req.policy == Some("Orphan")
    requires ItemKey(req.loc, req.name).AsPath() in s.entries
    requires !HasFinalizers(s.entries[ItemKey(req.loc, req.name).AsPath()].value)
    ensures
      var path := ItemKey(req.loc, req.name).AsPath();
      var next := Handle(s, req).0;
      && path !in next.entries && next.revision == s.revision + 2
      && next.log[|next.log| - 1].Delete? && next.log[|next.log| - 1].prev.Some?
      && (CanBeMarked(s.entries[path].value) ==> Mark(next.log[|next.log| - 1].prev.value.value) == Some("Orphan"))
  {
    hide HasFinalizers, Stamped, RemovedReply, Mark, CanBeMarked, MergeAnnotation, Replay, Tombstones;
    var key := ItemKey(req.loc, req.name);
    var current := s.entries[key.AsPath()];
    MarkIs(current.value);
    OrphanDeletedKeeps(s, req.res, key, current);
  }

  /**
   * What a create stores: the name it was sent or generated, the type and the
   * namespace of the path, and a uid, its own if it brought one.
   */
  lemma CreatedObject(s: Store, req: Request)
    requires req.CreateObject? && Handle(s, req).1.Done?
    ensures
      var next := Handle(s, req).0;
      && CreatedPath(req) in next.entries && CreatedPath(req) !in s.entries
      && var v := next.entries[CreatedPath(req)].value;
         && NameOf(v) == Some(NameFor(req.body, req.suffix))
         && v.Get("apiVersion") == Some(String(req.res.apiVersion)) && v.Get("kind") == Some(String(req.res.kind))
         && (req.loc.namespace.Some? ==> NamespaceIn(v) == req.loc.namespace.value)
         && (StrAt(v, ["metadata", "uid"]) == Some(req.uid) || UidOf(v) == UidOf(req.body))
         && (Blank(UidOf(req.body)) ==> UidOf(v) == Some(String(req.uid)))
  {
    hide Handle, Wire, Prepared, Allocated, SameRest, StrAt, Meta, Gate, UidOf, NodePortsOf, Healed, HeldByOthers;
    var first, last := CreatedStores(s, req);
    NamedRequest(s, req);
    PreparedIs(req.loc, req.res, req.body, NameFor(req.body, req.suffix), req.uid);
    SameRestIs(last.value, PreparedFor(req));
    MetaIs(PreparedFor(req));
    MetaIs(last.value);
  }

  lemma NamedRequest(s: Store, req: Request)
    requires req.CreateObject? && Handle(s, req).1.Done?
    ensures NameOf(req.body).Some? || GeneratePrefix(req.body) != ""
  {
    hide Prepared, Allocated, HealedFrom, NameOf, GeneratePrefix;
  }

  function UidOf(v: Value): Option<Value> {
    v.Pointer(["metadata", "uid"])
  }

  predicate Blank(uid: Option<Value>) {
    uid in [None, Some(Null), Some(String(""))]
  }

  /** A member of `metadata`. */
  function Meta(v: Value, key: string): Option<Value> {
    match v.Get("metadata")
    case None => None
    case Some(meta) => meta.Get(key)
  }

  lemma MetaIs(v: Value)
    ensures UidOf(v) == Meta(v, "uid") && NameOf(v) == AsText(Meta(v, "name"))
    ensures NamespaceIn(v) == OrEmpty(AsText(Meta(v, "namespace")))
    ensures StrAt(v, ["metadata", "uid"]) == AsText(Meta(v, "uid"))
    ensures GeneratePrefix(v) != "" ==> HasMeta(v)
    ensures NameOf(v).Some? ==> HasMeta(v)
  {
    TwoSteps(v, "metadata");
  }

  function AsText(v: Option<Value>): Option<string> {
    if v.Some? then v.value.AsStr() else None
  }

  lemma MetaAfterSet(v: Value, key: string, value: string)
    requires HasMeta(v)
    ensures
      var w := SetMeta(v, key, value);
      HasMeta(w) && Meta(w, key) == Some(String(value)) && forall k :: k != key ==> Meta(w, k) == Meta(v, k)
    ensures forall k :: k != "metadata" ==> SetMeta(v, key, value).Get(k) == v.Get(k)
  {
  }

  lemma MetaAfterType(v: Value, res: Resolved)
    requires HasMeta(v)
    ensures
      var w := SetTypeMeta(v, res);
      && HasMeta(w) && (forall k :: Meta(w, k) == Meta(v, k))
      && w.Get("apiVersion") == Some(String(res.apiVersion)) && w.Get("kind") == Some(String(res.kind))
  {
  }

  lemma MetaAfterUid(v: Value, uid: string)
    requires HasMeta(v) && v.Get("metadata").Some?
    ensures
      var w := EnsureUid(v, uid);
      && HasMeta(w) && (forall k :: k != "uid" ==> Meta(w, k) == Meta(v, k))
      && Meta(w, "uid") == (if Blank(Meta(v, "uid")) then Some(String(uid)) else Meta(v, "uid"))
    ensures forall k :: k != "metadata" ==> EnsureUid(v, uid).Get(k) == v.Get(k)
  {
  }

  lemma MetaAfterFinalizer(v: Value)
    requires HasMeta(v)
    ensures forall k :: k != "finalizers" ==> Meta(EnsureNamespaceFinalizer(v), k) == Meta(v, k)
    ensures forall k :: k != "metadata" ==> EnsureNamespaceFinalizer(v).Get(k) == v.Get(k)
  {
    hide HasFinalizers;
  }

  lemma PreparedIs(loc: Loc, res: Resolved, body: Value, name: string, uid: string)
    requires NameOf(body).Some? ==> name == NameOf(body).value
    requires NameOf(body).None? ==> GeneratePrefix(body) != ""
    ensures
      var v := Prepared(loc, res, body, name, uid);
      && NameOf(v) == Some(name)
      && v.Get("apiVersion") == Some(String(res.apiVersion)) && v.Get("kind") == Some(String(res.kind))
      && (loc.namespace.Some? ==> NamespaceIn(v) == loc.namespace.value)
      && (StrAt(v, ["metadata", "uid"]) == Some(uid) || UidOf(v) == UidOf(body))
      && (Blank(UidOf(body)) ==> UidOf(v) == Some(String(uid)))
  {
    hide SetMeta, SetTypeMeta, EnsureUid, EnsureNamespaceFinalizer, NameOf, NamespaceIn, UidOf, GeneratePrefix,
      StrAt, Meta;
    MetaIs(body);
    MetaIs(Prepared(loc, res, body, name, uid));
    var named := if NameOf(body).None? then SetMeta(body, "name", name) else body;
    MetaAfterSet(body, "name", name);
    MetaAfterType(named, res);
    var typed := SetTypeMeta(named, res);
    var placed := if loc.namespace.Some? then SetMeta(typed, "namespace", loc.namespace.value) else typed;
    MetaAfterSet(typed, "namespace", OrEmpty(loc.namespace));
    assert Meta(placed, "name") == Meta(named, "name");
    HasSome(placed);
    MetaAfterUid(placed, uid);
    MetaAfterFinalizer(EnsureUid(placed, uid));
  }

  lemma HasSome(v: Value)
    requires Meta(v, "name").Some?
    ensures v.Get("metadata").Some?
  {
  }

  /** No request touches an object other than its own. */
  lemma OthersStay(s: Store, req: Request, path: string)
    requires path != (if req.CreateObject? then CreatedPath(req) else ItemKey(req.loc, req.name).AsPath())
    ensures Handle(s, req).0.Get(path) == s.Get(path)
  {
    hide Wire, Prepared, Allocated, DeletionFinalized, HasFinalizers, Stamped, SetDeletionTimestamp, MergeAnnotation,
      SetTypeMeta, SetMeta, NowRfc3339, ResourceVersion, Created;
    if req.CreateObject? {
      if Handle(s, req).1.Done? {
        var first, last := CreatedStores(s, req);
      } else {
        RefusedCreate(s, req);
      }
    }
  }

  function CreatedPath(req: Request): string
    requires req.CreateObject?
  {
    ItemKey(req.loc, NameFor(req.body, req.suffix)).AsPath()
  }
}
