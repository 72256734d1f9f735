// The item handlers of the API server over the shared store: create, replace,
// patch, and the finalizer-gated delete.
module ApiServer {
  import opened Options
  import opened Json
  import opened Text
  import opened Storage
  import opened Objects
  import opened Time
  import opened NodePorts
  import opened NodePortLaws
  import opened Healing

  /** What a request path resolves to. */
  datatype Resolved = Resolved(apiVersion: string, kind: string, namespaced: bool)

  datatype Loc = Loc(group: string, resource: string, namespace: Option<string>)

  datatype Reply =
    | Done(body: Value)
    | NoSuchResource
    | NoSuchObject
    | BadRequest
    | Invalid
    | StoreSays(error: StorageError)

  const ORPHAN_MARK := "init-pro.io/deletion-propagation"

  // --- Bodies ------------------------------------------------------------------------------

  predicate HasFinalizers(v: Value) {
    match v.Pointer(["metadata", "finalizers"])
    case None => false
    case Some(f) => f.Array? && f.items != []
  }

  predicate Stamped(v: Value) {
    v.Pointer(["metadata", "deletionTimestamp"]).Some?
  }

  /** A completed soft delete: stamped, and nothing holds the object any more. */
  predicate DeletionFinalized(v: Value) {
    Stamped(v) && !HasFinalizers(v)
  }

  function SetTypeMeta(v: Value, res: Resolved): Value {
    if v.Object? then Object(v.fields["apiVersion" := String(res.apiVersion)]["kind" := String(res.kind)]) else v
  }

  /** A Namespace is created with the `kubernetes` finalizer unless it brings finalizers of its own. */
  function EnsureNamespaceFinalizer(v: Value): Value {
    if HasFinalizers(v) || !v.Object? then v else
      var meta := if "metadata" in v.fields then v.fields["metadata"] else Object(map[]);
      if !meta.Object? then v
      else Object(v.fields["metadata" := Object(meta.fields["finalizers" := Array([String("kubernetes")])])])
  }

  function SetDeletionTimestamp(v: Value, ts: string): Value {
    match v.Get("metadata")
    case None => v
    case Some(meta) => if meta.Object? then SetMeta(v, "deletionTimestamp", ts) else v
  }

  function MergeAnnotation(v: Value, key: string, value: string): Value {
    if !v.Object? then v else
      var meta := if "metadata" in v.fields then v.fields["metadata"] else Object(map[]);
      if !meta.Object? then v else
        var notes := if "annotations" in meta.fields then meta.fields["annotations"] else Object(map[]);
        if !notes.Object? then v
        else
          var merged := Object(notes.fields[key := String(value)]);
          Object(v.fields["metadata" := Object(meta.fields["annotations" := merged])])
  }

  /** The wire form of an entry. */
  function Wire(entry: Entry): Value {
    SetMeta(entry.value, "resourceVersion", Decimal(entry.modRevision))
  }

  // --- Handlers --------------------------------------------------------------------------------

  function ScopeFits(loc: Loc, res: Resolved): bool {
    res.namespaced == loc.namespace.Some?
  }

  function ItemKey(loc: Loc, name: string): Key {
    Key(loc.group, loc.resource, if loc.namespace.Some? then loc.namespace.value else "", name)
  }

  function NameOf(v: Value): Option<string> {
    StrAt(v, ["metadata", "name"])
  }

  /** The body a create stores: named, typed, placed, identified, and gated if it is a Namespace. */
  function Prepared(loc: Loc, res: Resolved, body: Value, name: string, uid: string): Value {
    var named := if NameOf(body).None? then SetMeta(body, "name", name) else body;
    var typed := SetTypeMeta(named, res);
    var placed := if loc.namespace.Some? then SetMeta(typed, "namespace", loc.namespace.value) else typed;
    var identified := EnsureUid(placed, uid);
    if res.kind == "Namespace" then EnsureNamespaceFinalizer(identified) else identified
  }

  /** A Service is defaulted against the ports that all stored Services hold, or against none after a failed listing. */
  function Allocated(s: Store, res: Resolved, body: Value, listed: bool): Defaulted {
    if res.kind == "Service" then DefaultedService(body, if listed then HeldIn(s.entries) else {})
    else Defaulted(body, {}, None)
  }

  function GeneratePrefix(body: Value): string {
    OrEmpty(StrAt(body, ["metadata", "generateName"]))
  }

  /** The object's own name, or its prefix with a random suffix. */
  function NameFor(body: Value, suffix: string): string {
    if NameOf(body).Some? then NameOf(body).value else GeneratePrefix(body) + suffix
  }

  /**
   * What a create stores, or the answer that refuses it; `suffix` and `uid` are
   * what randomness would supply, `listed` is whether the listing succeeds, and
   * `racing` is what others write between it and the create.
   */
  function Made(s: Store, loc: Loc, res: Resolved, body: Value, suffix: string, uid: string, listed: bool,
          racing: seq<Op>): (Store, Result<Entry, Reply>)
  {
    if !ScopeFits(loc, res) then (s, Err(NoSuchResource)) else
      if NameOf(body).None? && GeneratePrefix(body) == "" then (s, Err(Invalid)) else
        var name := NameFor(body, suffix);
        var ready := Allocated(s, res, Prepared(loc, res, body, name, uid), listed);
        if ready.error.Some? then (s, Err(Invalid)) else
          match AfterOps(s, racing).Create(ItemKey(loc, name), ready.body)
          case (next, Ok(entry)) => (next, Ok(entry))
          case (next, Err(e)) => (next, Err(StoreSays(e)))
  }

  function Answered(r: Result<Entry, Reply>): Reply {
    match r
    case Ok(entry) => Done(Wire(entry))
    case Err(reply) => reply
  }

  /** A create while others write: a Service is healed before the answer. */
  function CreatedAmid(s: Store, loc: Loc, res: Resolved, body: Value, suffix: string, uid: string, listed: bool,
          racing: seq<Op>, others: seq<Meanwhile>): (Store, Reply)
  {
    var (next, r) := Made(s, loc, res, body, suffix, uid, listed, racing);
    if r.Err? || res.kind != "Service" then (next, Answered(r)) else
      var (after, healed) := HealedFrom(next, ItemKey(loc, NameFor(body, suffix)), r.value, others);
      (after, Done(Wire(healed)))
  }

  /** A create with nobody writing meanwhile; `relisted` is whether the heal's listing succeeds. */
  function Created(s: Store, loc: Loc, res: Resolved, body: Value, suffix: string, uid: string, listed: bool,
          relisted: bool): (Store, Reply)
  {
    CreatedAmid(s, loc, res, body, suffix, uid, listed, [], Alone(relisted))
  }

  /** Whoever writes later, a listed create has nothing to heal if nobody wrote between the two listings. */
  lemma UndisturbedCreate(s: Store, loc: Loc, res: Resolved, body: Value, suffix: string, uid: string,
          others: seq<Meanwhile>)
    requires others != [] && others[0].beforeList == []
    ensures
      var (next, r) := Made(s, loc, res, body, suffix, uid, true, []);
      CreatedAmid(s, loc, res, body, suffix, uid, true, [], others) == (next, Answered(r))
  {
    hide Prepared, Wire, DefaultedService, NodePortsOf, HeldIn, HealedFrom, Key.AsPath;
    NoOps(s);
    if Made(s, loc, res, body, suffix, uid, true, []).1.Ok? && res.kind == "Service" {
      var name := NameFor(body, suffix);
      var prepared := Prepared(loc, res, body, name, uid);
      ReadyIsFree(s, prepared);
      CreatedIsCalm(s, ItemKey(loc, name), Allocated(s, res, prepared, true).body, others);
    }
  }

  /**
   * A create that lost the race between its listing and itself: healed alone, it
   * shares nothing with what the other Services hold by then exactly if it did
   * not collide or what it can drop passes the defaulting.
   */
  lemma RacedCreate(s: Store, loc: Loc, res: Resolved, body: Value, suffix: string, uid: string, listed: bool,
          racing: seq<Op>, others: seq<Meanwhile>)
    requires res.kind == "Service" && others != [] && others[0] == UNDISTURBED
    requires Made(s, loc, res, body, suffix, uid, listed, racing).1.Ok?
    ensures
      var path := ItemKey(loc, NameFor(body, suffix)).AsPath();
      var made := Made(s, loc, res, body, suffix, uid, listed, racing).1.value;
      var after := CreatedAmid(s, loc, res, body, suffix, uid, listed, racing, others).0;
      var foreign := HeldByOthers(AfterOps(s, racing).entries, path);
      && path in after.entries && HeldByOthers(after.entries, path) == foreign
      && (NodePortsOf(after.entries[path].value) !! foreign <==>
            NodePortsOf(made.value) !! foreign || Healed(made.value, foreign).error.None?)
  {
    hide Prepared, Wire, Allocated, NodePortsOf, Healed, HealedFrom, AfterOps, HeldByOthers, Key.AsPath, NameOf,
      GeneratePrefix;
    var key := ItemKey(loc, NameFor(body, suffix));
    var (next, r) := Made(s, loc, res, body, suffix, uid, listed, racing);
    UndisturbedHeal(next, key, r.value, others);
    OthersAsBefore(AfterOps(s, racing), r.value);
  }

  /** The terminal delete after a write that emptied the finalizers of a stamped object. */
  function Finalized(s: Store, key: Key, entry: Entry): Store {
    if DeletionFinalized(entry.value) then s.Remove(key, None).0 else s
  }

  /** Update, then finalize: the tail of a replace and of a patch. */
  function Written(s: Store, key: Key, body: Value, ifRevision: Option<nat>): (Store, Reply) {
    match s.Update(key, body, ifRevision)
    case (next, Ok(entry)) => (Finalized(next, key, entry), Done(Wire(entry)))
    case (next, Err(e)) => (next, StoreSays(e))
  }

  /** A body without a namespace is given that of the path. */
  function PlacedIn(loc: Loc, v: Value): Value {
    if loc.namespace.Some? && NamespaceIn(v) == "" then SetMeta(v, "namespace", loc.namespace.value) else v
  }

  function Replaced(s: Store, loc: Loc, res: Resolved, name: string, body: Value): (Store, Reply) {
    if !ScopeFits(loc, res) then (s, NoSuchResource) else
      var typed := SetTypeMeta(body, res);
      if loc.namespace.Some? && NamespaceIn(typed) !in ["", loc.namespace.value] then (s, BadRequest)
      else Written(s, ItemKey(loc, name), PlacedIn(loc, typed), ResourceVersion(body))
  }

  /**
   * `edit` is the patch, of whatever kind, `None` when it does not apply;
   * `racing` is what others write between the read and the write.
   */
  function PatchedAmid(s: Store, loc: Loc, res: Resolved, name: string, edit: Value -> Option<Value>, racing: seq<Op>)
    : (Store, Reply)
  {
    if !ScopeFits(loc, res) then (s, NoSuchResource) else
      var key := ItemKey(loc, name);
      match s.Get(key.AsPath())
      case None => (s, NoSuchObject)
      case Some(current) =>
        match edit(current.value)
        case None => (s, BadRequest)
        case Some(merged) =>
          Written(AfterOps(s, racing), key, SetTypeMeta(merged, res), Some(current.modRevision))
  }

  /** A patch with nobody writing meanwhile. */
  function Patched(s: Store, loc: Loc, res: Resolved, name: string, edit: Value -> Option<Value>): (Store, Reply) {
    PatchedAmid(s, loc, res, name, edit, [])
  }

  /** `racing` is what others write after the read, `between` what they write after the orphan mark. */
  function DeletedAmid(s: Store, loc: Loc, res: Resolved, name: string, resourceVersion: Option<string>,
                       policy: Option<string>, now: nat, racing: seq<Op>, between: seq<Op>): (Store, Reply)
  {
    if !ScopeFits(loc, res) then (s, NoSuchResource) else
      var key := ItemKey(loc, name);
      var cas := if resourceVersion.Some? then ParseU64(resourceVersion.value) else None;
      match s.Get(key.AsPath())
      case None => (s, NoSuchObject)
      case Some(current) =>
        var at := AfterOps(s, racing);
        if HasFinalizers(current.value) then SoftDeleted(at, res, key, current, cas, now) else
        if policy == Some("Orphan") then OrphanDeleted(at, res, key, current, between) else
          HardDeleted(at, res, key, cas)
  }

  /** A delete with nobody writing meanwhile. */
  function Deleted(s: Store, loc: Loc, res: Resolved, name: string, resourceVersion: Option<string>,
                   policy: Option<string>, now: nat): (Store, Reply)
  {
    DeletedAmid(s, loc, res, name, resourceVersion, policy, now, [], [])
  }

  function RemovedReply(res: Resolved, entry: Entry): Reply {
    Done(SetTypeMeta(Wire(entry), res))
  }

  function HardDeleted(s: Store, res: Resolved, key: Key, cas: Option<nat>): (Store, Reply) {
    match s.Remove(key, cas)
    case (next, Ok(Some(entry))) => (next, RemovedReply(res, entry))
    case (next, Ok(None)) => (next, NoSuchObject)
    case (next, Err(e)) => (next, StoreSays(e))
  }

  function SoftDeleted(s: Store, res: Resolved, key: Key, current: Entry, cas: Option<nat>, now: nat): (Store, Reply) {
    if Stamped(current.value) then (s, RemovedReply(res, current)) else
      var body := SetDeletionTimestamp(current.value, NowRfc3339(now));
      match s.Update(key, body, Some(if cas.Some? then cas.value else current.modRevision))
      case (next, Ok(entry)) => (next, RemovedReply(res, entry))
      case (next, Err(e)) => (next, StoreSays(e))
  }

  function OrphanDeleted(s: Store, res: Resolved, key: Key, current: Entry, between: seq<Op>): (Store, Reply) {
    match s.Update(key, MergeAnnotation(current.value, ORPHAN_MARK, "Orphan"), Some(current.modRevision))
    case (marked, Ok(entry)) => HardDeleted(AfterOps(marked, between), res, key, Some(entry.modRevision))
    case (marked, Err(e)) => (marked, StoreSays(e))
  }

  /** What defaulting allocates is free. */
  lemma ReadyIsFree(s: Store, body: Value)
    requires DefaultedService(body, HeldIn(s.entries)).error.None?
    ensures NodePortsOf(DefaultedService(body, HeldIn(s.entries)).body) !! HeldIn(s.entries)
  {
    hide DefaultedService, NodePortsOf, HeldIn;
    DefaultedIsSound(body, HeldIn(s.entries));
  }

  /** The handlers as they run against the store, one store operation after another. */
  class Server {
    const store: EmbeddedStorage

    constructor (store: EmbeddedStorage)
      ensures this.store == store
    {
      this.store := store;
    }

    method DoCreate(loc: Loc, res: Resolved, body: Value, suffix: string, uid: string, listed: bool,
                    racing: seq<Op>, others: seq<Meanwhile>) returns (reply: Reply)
      requires store.State().Valid() && |others| == HEAL_MAX_ATTEMPTS
      modifies store
      ensures store.State().Valid()
      ensures (store.State(), reply)
           == CreatedAmid(old(store.State()), loc, res, body, suffix, uid, listed, racing, others)
    {
      hide Prepared, Wire, Allocated, Replay, Tombstones, HealedFrom, Key.AsPath, AfterOps, Recorded, Ends;
      if !ScopeFits(loc, res) { return NoSuchResource; }
      var name := NameOf(body);
      if name.None? {
        if GeneratePrefix(body) == "" { return Invalid; }
        name := Some(GeneratePrefix(body) + suffix);
      }
      var key := ItemKey(loc, name.value);
      var ready, error := Allocate(res, Prepared(loc, res, body, name.value, uid), listed);
      if error.Some? { return Invalid; }
      Interfere(store, racing);
      var r := store.Create(key, ready);
      if r.Err? { return StoreSays(r.error); }
      var entry := r.value;
      if res.kind == "Service" {
        entry := Heal(store, key, entry, others);
      }
      reply := Done(Wire(entry));
    }

    /** `service::prepare`, for a Service; any other body stays as it is. */
    method Allocate(res: Resolved, body: Value, listed: bool) returns (ready: Value, error: Option<ServiceError>)
      requires store.State().Valid()
      ensures
        var d := Allocated(store.State(), res, body, listed);
        ready == d.body && error == d.error
    {
      hide DefaultedService, HeldIn, UsedNodePorts, ValuesOf, IsListing;
      if res.kind != "Service" { return body, None; }
      var used: set<Pair> := {};
      if listed {
        var listing := store.List(SERVICES);
        UsedIsHeldIn(store.entries, listing);
        used := UsedNodePorts(ValuesOf(listing));
      }
      ready, used, error := DefaultService(body, used);
    }

    method Write(key: Key, body: Value, ifRevision: Option<nat>) returns (reply: Reply)
      requires store.State().Valid()
      modifies store
      ensures store.State().Valid()
      ensures (store.State(), reply) == Written(old(store.State()), key, body, ifRevision)
    {
      hide DeletionFinalized, Wire;
      var r := store.Update(key, body, ifRevision);
      if r.Err? { return StoreSays(r.error); }
      FinalizeIfComplete(key, r.value);
      reply := Done(Wire(r.value));
    }

    method FinalizeIfComplete(key: Key, entry: Entry)
      requires store.State().Valid()
      modifies store
      ensures store.State().Valid()
      ensures store.State() == Finalized(old(store.State()), key, entry)
    {
      if !DeletionFinalized(entry.value) { return; }
      var gone := store.Remove(key, None);
    }

    method DoReplace(loc: Loc, res: Resolved, name: string, body: Value) returns (reply: Reply)
      requires store.State().Valid()
      modifies store
      ensures store.State().Valid()
      ensures (store.State(), reply) == Replaced(old(store.State()), loc, res, name, body)
    {
      hide Written, SetMeta;
      if !ScopeFits(loc, res) { return NoSuchResource; }
      var ifRevision := ResourceVersion(body);
      var next := SetTypeMeta(body, res);
      if loc.namespace.Some? {
        var bodyNs := NamespaceIn(next);
        if bodyNs == "" {
          next := SetMeta(next, "namespace", loc.namespace.value);
        } else if bodyNs != loc.namespace.value {
          return BadRequest;
        }
      }
      reply := Write(ItemKey(loc, name), next, ifRevision);
    }

    method DoPatch(loc: Loc, res: Resolved, name: string, edit: Value -> Option<Value>, racing: seq<Op>)
      returns (reply: Reply)
      requires store.State().Valid()
      modifies store
      ensures store.State().Valid()
      ensures (store.State(), reply) == PatchedAmid(old(store.State()), loc, res, name, edit, racing)
    {
      hide Written, AfterOps;
      if !ScopeFits(loc, res) { return NoSuchResource; }
      var key := ItemKey(loc, name);
      var current := store.Get(key.AsPath());
      if current.None? { return NoSuchObject; }
      var merged := edit(current.value.value);
      if merged.None? { return BadRequest; }
      Interfere(store, racing);
      reply := Write(key, SetTypeMeta(merged.value, res), Some(current.value.modRevision));
    }

    method DoDelete(loc: Loc, res: Resolved, name: string, resourceVersion: Option<string>, policy: Option<string>,
                    now: nat, racing: seq<Op>, between: seq<Op>) returns (reply: Reply)
      requires store.State().Valid()
      modifies store
      ensures store.State().Valid()
      ensures (store.State(), reply)
           == DeletedAmid(old(store.State()), loc, res, name, resourceVersion, policy, now, racing, between)
    {
      hide HasFinalizers, SoftDeleted, OrphanDeleted, RemovedReply, AfterOps;
      if !ScopeFits(loc, res) { return NoSuchResource; }
      var key := ItemKey(loc, name);
      var cas := if resourceVersion.Some? then ParseU64(resourceVersion.value) else None;
      var found := store.Get(key.AsPath());
      if found.None? { return NoSuchObject; }
      var current := found.value;
      Interfere(store, racing);
      if HasFinalizers(current.value) {
        reply := SoftDelete(res, key, current, cas, now);
      } else if policy == Some("Orphan") {
        reply := OrphanDelete(res, key, current, between);
      } else {
        reply := HardDelete(res, key, cas);
      }
    }

    method HardDelete(res: Resolved, key: Key, cas: Option<nat>) returns (reply: Reply)
      requires store.State().Valid()
      modifies store
      ensures store.State().Valid()
      ensures (store.State(), reply) == HardDeleted(old(store.State()), res, key, cas)
    {
      hide RemovedReply;
      var r := store.Remove(key, cas);
      if r.Err? { return StoreSays(r.error); }
      reply := if r.value.Some? then RemovedReply(res, r.value.value) else NoSuchObject;
    }

    method SoftDelete(res: Resolved, key: Key, current: Entry, cas: Option<nat>, now: nat) returns (reply: Reply)
      requires store.State().Valid()
      modifies store
      ensures store.State().Valid()
      ensures (store.State(), reply) == SoftDeleted(old(store.State()), res, key, current, cas, now)
    {
      hide RemovedReply, NowRfc3339, SetDeletionTimestamp;
      if Stamped(current.value) { return RemovedReply(res, current); }
      var body := SetDeletionTimestamp(current.value, NowRfc3339(now));
      var r := store.Update(key, body, Some(if cas.Some? then cas.value else current.modRevision));
      reply := if r.Ok? then RemovedReply(res, r.value) else StoreSays(r.error);
    }

    method OrphanDelete(res: Resolved, key: Key, current: Entry, between: seq<Op>) returns (reply: Reply)
      requires store.State().Valid()
      modifies store
      ensures store.State().Valid()
      ensures (store.State(), reply) == OrphanDeleted(old(store.State()), res, key, current, between)
    {
      hide RemovedReply, MergeAnnotation, HardDeleted, AfterOps;
      var r := store.Update(key, MergeAnnotation(current.value, ORPHAN_MARK, "Orphan"), Some(current.modRevision));
      if r.Err? { return StoreSays(r.error); }
      Interfere(store, between);
      reply := HardDelete(res, key, Some(r.value.modRevision));
    }
  }
}
