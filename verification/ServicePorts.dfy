// NodePorts over every run of API requests: exactly which creates, replaces,
// patches and deletes keep the stored Services from sharing a port.
module ServicePorts {
  import opened Options
  import opened Json
  import opened Storage
  import opened Objects
  import opened Time
  import opened NodePorts
  import opened NodePortLaws
  import opened Healing
  import opened StrategicMerge
  import opened ApiServer
  import opened PatchRequests
  import opened FinalizerLaws

  /** No two stored Services hold one pair. */
  ghost predicate PortsApart(entries: map<string, Entry>) {
    forall p, q :: p in entries && q in entries && SERVICES.Covers(p) && SERVICES.Covers(q) && p != q ==>
      NodePortsOf(entries[p].value) !! NodePortsOf(entries[q].value)
  }

  /** Of all ports numbered knowing of nothing in use, none comes to show a pair in `foreign`. */
  ghost predicate NoneTaken(ports: seq<Value>, foreign: set<Pair>) {
    forall p :: p in foreign ==> !ComesToShow(ports, {}, p)
  }

  /** What a replaced or patched object may be: gone with this write, or asking for nothing another Service holds. */
  ghost predicate KeepsClear(s: Store, path: string, body: Value) {
    SERVICES.Covers(path) ==> DeletionFinalized(body) || NodePortsOf(body) !! HeldByOthers(s.entries, path)
  }

  /**
   * What the sender of a request can check beforehand. A create of a Service
   * is clear after a listing; after a failed one, if none of the numbers its
   * ports get by counting alone is held, or if the heal's listing succeeds and
   * the reopened list passes. Replaces and patches are not checked by anyone.
   */
  ghost predicate Clear(s: Store, req: Request) {
    match req
    case CreateObject(_, res, body, _, _, listed, relisted) =>
      var path, ports := CreatedPath(req), SpecPorts(body);
      var foreign := HeldByOthers(s.entries, path);
      SERVICES.Covers(path) && IsNodePortType(body) ==>
        if res.kind != "Service" then ShownPairs(ports) !! foreign
        else listed || NoneTaken(ports, foreign) || (relisted && CanBeHealed(ports, foreign))
    case ReplaceObject(loc, _, name, body) => KeepsClear(s, ItemKey(loc, name).AsPath(), body)
    case PatchObject(loc, _, name, edit) =>
      var path := ItemKey(loc, name).AsPath();
      path in s.entries && edit(s.entries[path].value).Some? ==>
        KeepsClear(s, path, edit(s.entries[path].value).value)
    case DeleteObject(_, _, _, _, _, _) => true
  }

  // --- One write -------------------------------------------------------------------------------------

  lemma HeldHasAll(entries: map<string, Entry>, path: string, q: string)
    requires q in entries && SERVICES.Covers(q) && q != path
    ensures NodePortsOf(entries[q].value) <= HeldByOthers(entries, path)
  {
    hide NodePortsOf;
  }

  lemma HeldBySome(entries: map<string, Entry>, path: string, p: Pair) returns (q: string)
    requires p in HeldByOthers(entries, path)
    ensures q in entries && SERVICES.Covers(q) && q != path && p in NodePortsOf(entries[q].value)
  {
    hide NodePortsOf;
    q :| q in entries && SERVICES.Covers(q) && q != path && p in NodePortsOf(entries[q].value);
  }

  /** A put keeps the Services apart exactly if it is no Service or shares nothing with the others. */
  lemma PutApart(entries: map<string, Entry>, path: string, e: Entry)
    requires PortsApart(entries)
    ensures PortsApart(entries[path := e])
       <==> (SERVICES.Covers(path) ==> NodePortsOf(e.value) !! HeldByOthers(entries, path))
  {
    hide NodePortsOf, HeldByOthers;
    var after := entries[path := e];
    if SERVICES.Covers(path) {
      if NodePortsOf(e.value) !! HeldByOthers(entries, path) {
        forall q | q in entries && SERVICES.Covers(q) && q != path
          ensures NodePortsOf(entries[q].value) !! NodePortsOf(e.value)
        {
          HeldHasAll(entries, path, q);
        }
      } else {
        var p :| p in NodePortsOf(e.value) && p in HeldByOthers(entries, path);
        var q := HeldBySome(entries, path, p);
        assert after[q] == entries[q] && after[path] == e;
      }
    }
  }

  lemma RemoveApart(entries: map<string, Entry>, path: string)
    requires PortsApart(entries)
    ensures PortsApart(entries - {path})
  {
    hide NodePortsOf;
  }

  /** What a Service shows depends on its `spec` alone. */
  lemma SameSpec(v: Value, w: Value)
    requires v.Get("spec") == w.Get("spec")
    ensures IsNodePortType(v) == IsNodePortType(w) && SpecPorts(v) == SpecPorts(w) && NodePortsOf(v) == NodePortsOf(w)
  {
    hide ShownPairs;
    TwoSteps(v, "spec");
    TwoSteps(w, "spec");
  }

  lemma PreparedSpec(loc: Loc, res: Resolved, body: Value, name: string, uid: string)
    ensures Prepared(loc, res, body, name, uid).Get("spec") == body.Get("spec")
  {
    hide NameOf, HasFinalizers;
    var named := if NameOf(body).None? then SetMeta(body, "name", name) else body;
    SetMetaSpec(body, "name", name);
    var typed := SetTypeMeta(named, res);
    assert typed.Get("spec") == named.Get("spec");
    var placed := if loc.namespace.Some? then SetMeta(typed, "namespace", loc.namespace.value) else typed;
    SetMetaSpec(typed, "namespace", OrEmpty(loc.namespace));
    SetMetaSpec(placed, "uid", uid);
    assert EnsureUid(placed, uid).Get("spec") == placed.Get("spec");
  }

  lemma SetMetaSpec(v: Value, key: string, value: string)
    ensures SetMeta(v, key, value).Get("spec") == v.Get("spec")
  {
  }

  // --- Creates -----------------------------------------------------------------------------------------

  /**
   * After a create of a Service, alone and whether or not its listings succeed:
   * exactly when it shares nothing with the others.
   */
  lemma CreatedServiceIsApart(s: Store, req: Request)
    requires req.CreateObject? && Handle(s, req).1.Done? && req.res.kind == "Service"
    ensures
      var path, ports, next := CreatedPath(req), SpecPorts(req.body), Handle(s, req).0;
      var foreign := HeldByOthers(s.entries, path);
      && path in next.entries && HeldByOthers(next.entries, path) == foreign
      && (NodePortsOf(next.entries[path].value) !! foreign <==>
            || !IsNodePortType(req.body) || req.listed
            || NoneTaken(ports, foreign) || (req.relisted && CanBeHealed(ports, foreign)))
  {
    hide Handle, NodePortsOf, IsNodePortType, SpecPorts, Healed, DefaultedService, HeldByOthers, SameRest, NoneTaken,
      CanBeHealed, HeldIn, Prepared, NameFor;
    var path := CreatedPath(req);
    var first, last := CreatedStores(s, req);
    var foreign := HeldByOthers(s.entries, path);
    var prepared := PreparedFor(req);
    PreparedSpec(req.loc, req.res, req.body, NameFor(req.body, req.suffix), req.uid);
    SameSpec(prepared, req.body);
    OthersAsBefore(s, first);
    OthersAsBefore(s.Write(first), last);
    if req.listed {
      DefaultedIsFree(prepared, HeldIn(s.entries));
      OthersAreHeld(s.entries, path);
    } else {
      BlindFirst(prepared, foreign);
      HealedFree(first.value, foreign);
      if IsNodePortType(prepared) { HealsBlindExactly(prepared, foreign); }
    }
  }

  lemma DefaultedIsFree(body: Value, used: set<Pair>)
    requires DefaultedService(body, used).error.None?
    ensures NodePortsOf(DefaultedService(body, used).body) !! used
  {
    hide DefaultedService, NodePortsOf;
    DefaultedIsSound(body, used);
  }

  lemma OthersAreHeld(entries: map<string, Entry>, path: string)
    ensures HeldByOthers(entries, path) <= HeldIn(entries)
  {
    hide NodePortsOf;
  }

  /** What the first version of an unlisted create shows. */
  lemma BlindFirst(body: Value, foreign: set<Pair>)
    requires DefaultedService(body, {}).error.None?
    ensures IsNodePortType(DefaultedService(body, {}).body) == IsNodePortType(body)
    ensures NodePortsOf(DefaultedService(body, {}).body) !! foreign
       <==> !IsNodePortType(body) || NoneTaken(SpecPorts(body), foreign)
  {
    hide DefaultedService, SpecPorts, IsNodePortType, ComesToShow;
    DefaultedShape(body, {});
    if IsNodePortType(body) {
      hide NodePortsOf;
      forall p: Pair
        ensures p in NodePortsOf(DefaultedService(body, {}).body) <==> ComesToShow(SpecPorts(body), {}, p)
      {
        ShowsExactly(body, {}, p);
      }
    }
  }

  lemma HealedFree(v: Value, foreign: set<Pair>)
    ensures IsNodePortType(v) && Healed(v, foreign).error.None? ==> NodePortsOf(Healed(v, foreign).body) !! foreign
  {
    hide IsNodePortType, NodePortsOf, Healed;
    if IsNodePortType(v) && Healed(v, foreign).error.None? {
      HealedIsDisjoint(v, foreign);
    }
  }

  lemma CreateKeepsApart(s: Store, req: Request)
    requires PortsApart(s.entries) && req.CreateObject? && Handle(s, req).1.Done?
    ensures PortsApart(Handle(s, req).0.entries) <==> Clear(s, req)
  {
    hide Handle, NodePortsOf, IsNodePortType, SpecPorts, Healed, DefaultedService, HeldByOthers, SameRest, NoneTaken,
      CanBeHealed, HeldIn, Prepared, NameFor, PortsApart, ShownPairs, KeyPrefix.Covers;
    var path := CreatedPath(req);
    var first, last := CreatedStores(s, req);
    assert Handle(s, req).0.entries == s.entries[path := last];
    PutApart(s.entries, path, last);
    if req.res.kind == "Service" {
      CreatedServiceIsApart(s, req);
      AsAsked(req.body);
    } else {
      PreparedSpec(req.loc, req.res, req.body, NameFor(req.body, req.suffix), req.uid);
      SameSpec(PreparedFor(req), req.body);
      AsAsked(req.body);
    }
  }

  lemma AsAsked(v: Value)
    ensures NodePortsOf(v) == if IsNodePortType(v) then ShownPairs(SpecPorts(v)) else {}
  {
  }

  // --- The other requests --------------------------------------------------------------------------------

  lemma WrittenEntries(s: Store, key: Key, body: Value, ifRevision: Option<nat>) returns (e: Entry)
    requires Written(s, key, body, ifRevision).1.Done?
    ensures e.value == body
    ensures Written(s, key, body, ifRevision).0.entries ==
      if DeletionFinalized(body) then s.entries - {key.AsPath()} else s.entries[key.AsPath() := e]
  {
    hide DeletionFinalized, Wire;
    e := s.Update(key, body, ifRevision).1.value;
    assert s.entries[key.AsPath() := e] - {key.AsPath()} == s.entries - {key.AsPath()};
  }

  lemma WrittenApart(s: Store, key: Key, body: Value, ifRevision: Option<nat>)
    requires PortsApart(s.entries) && Written(s, key, body, ifRevision).1.Done?
    ensures PortsApart(Written(s, key, body, ifRevision).0.entries) <==> KeepsClear(s, key.AsPath(), body)
  {
    hide DeletionFinalized, Written, NodePortsOf, HeldByOthers, PortsApart, KeyPrefix.Covers;
    var e := WrittenEntries(s, key, body, ifRevision);
    PutApart(s.entries, key.AsPath(), e);
    RemoveApart(s.entries, key.AsPath());
  }

  lemma ReplaceKeepsApart(s: Store, req: Request)
    requires PortsApart(s.entries) && req.ReplaceObject? && Handle(s, req).1.Done?
    ensures PortsApart(Handle(s, req).0.entries) <==> Clear(s, req)
  {
    hide Written, NodePortsOf, HeldByOthers, PortsApart, SetMeta, SetTypeMeta, DeletionFinalized, Gate,
      KeyPrefix.Covers;
    var typed := SetTypeMeta(req.body, req.res);
    var placed := PlacedIn(req.loc, typed);
    WrittenApart(s, ItemKey(req.loc, req.name), placed, ResourceVersion(req.body));
    SetTypeMetaKeepsGate(req.body, req.res);
    SetMetaKeepsGate(typed, "namespace", OrEmpty(req.loc.namespace));
    SameGate(req.body, placed);
    SetTypeMetaSpec(req.body, req.res);
    SetMetaSpec(typed, "namespace", OrEmpty(req.loc.namespace));
    SameSpec(req.body, placed);
  }

  lemma SetTypeMetaSpec(v: Value, res: Resolved)
    ensures SetTypeMeta(v, res).Get("spec") == v.Get("spec")
  {
  }

  lemma PatchKeepsApart(s: Store, req: Request)
    requires PortsApart(s.entries) && req.PatchObject? && Handle(s, req).1.Done?
    ensures PortsApart(Handle(s, req).0.entries) <==> Clear(s, req)
  {
    hide Written, NodePortsOf, HeldByOthers, PortsApart, SetTypeMeta, DeletionFinalized, Gate, KeyPrefix.Covers;
    var current := s.Get(ItemKey(req.loc, req.name).AsPath()).value;
    var merged := req.edit(current.value).value;
    var typed := SetTypeMeta(merged, req.res);
    WrittenApart(s, ItemKey(req.loc, req.name), typed, Some(current.modRevision));
    SetTypeMetaKeepsGate(merged, req.res);
    SameGate(merged, typed);
    SetTypeMetaSpec(merged, req.res);
    SameSpec(merged, typed);
  }

  lemma DeleteKeepsApart(s: Store, req: Request)
    requires PortsApart(s.entries) && req.DeleteObject?
    ensures PortsApart(Handle(s, req).0.entries)
  {
    hide PortsApart, HasFinalizers, SoftDeleted, OrphanDeleted, RemovedReply;
    var key := ItemKey(req.loc, req.name);
    RemoveApart(s.entries, key.AsPath());
    if key.AsPath() in s.entries {
      var current := s.entries[key.AsPath()];
      SoftDeletedApart(s, req.res, key, current, AskedRevision(req), req.now);
      OrphanDeletedApart(s, req.res, key, current);
    }
  }

  lemma SoftDeletedApart(s: Store, res: Resolved, key: Key, current: Entry, cas: Option<nat>, now: nat)
    requires PortsApart(s.entries) && s.Get(key.AsPath()) == Some(current)
    ensures PortsApart(SoftDeleted(s, res, key, current, cas, now).0.entries)
  {
    hide PortsApart, RemovedReply, NowRfc3339, SetDeletionTimestamp, Stamped, NodePortsOf;
    var body := SetDeletionTimestamp(current.value, NowRfc3339(now));
    StampedSpec(current.value, NowRfc3339(now));
    SameSpec(current.value, body);
    var (next, r) := s.Update(key, body, Some(if cas.Some? then cas.value else current.modRevision));
    if r.Ok? {
      RewrittenApart(s.entries, key.AsPath(), r.value);
    }
  }

  lemma OrphanDeletedApart(s: Store, res: Resolved, key: Key, current: Entry)
    requires PortsApart(s.entries) && s.Get(key.AsPath()) == Some(current)
    ensures PortsApart(OrphanDeleted(s, res, key, current, []).0.entries)
  {
    hide PortsApart, RemovedReply, MergeAnnotation;
    var (marked, r) := s.Update(key, MergeAnnotation(current.value, ORPHAN_MARK, "Orphan"), Some(current.modRevision));
    assert marked.entries - {key.AsPath()} == s.entries - {key.AsPath()};
    RemoveApart(s.entries, key.AsPath());
  }

  lemma StampedSpec(v: Value, ts: string)
    ensures SetDeletionTimestamp(v, ts).Get("spec") == v.Get("spec")
  {
  }

  /** A new version that shows what the old one did. */
  lemma RewrittenApart(entries: map<string, Entry>, path: string, e: Entry)
    requires PortsApart(entries) && path in entries && NodePortsOf(e.value) == NodePortsOf(entries[path].value)
    ensures PortsApart(entries[path := e])
  {
    hide NodePortsOf;
  }

  // --- Every request, every run -----------------------------------------------------------------------------

  /** A request that is not granted changes nothing. */
  lemma RefusedChangesNothing(s: Store, req: Request)
    requires !Handle(s, req).1.Done?
    ensures Handle(s, req).0 == s
  {
    hide Created, HasFinalizers, Stamped, SetDeletionTimestamp, MergeAnnotation, Wire, SetTypeMeta, NowRfc3339,
      DeletionFinalized, SetMeta;
    if req.CreateObject? { RefusedCreate(s, req); }
  }

  /** A granted request keeps the Services apart exactly if it is clear. */
  lemma RequestKeepsApart(s: Store, req: Request)
    requires PortsApart(s.entries) && Handle(s, req).1.Done?
    ensures PortsApart(Handle(s, req).0.entries) <==> Clear(s, req)
  {
    hide Handle, PortsApart;
    match req {
      case CreateObject(_, _, _, _, _, _, _) => CreateKeepsApart(s, req);
      case ReplaceObject(_, _, _, _) => ReplaceKeepsApart(s, req);
      case PatchObject(_, _, _, _) => PatchKeepsApart(s, req);
      case DeleteObject(_, _, _, _, _, _) => DeleteKeepsApart(s, req);
    }
  }

  ghost predicate ClearAt(reqs: seq<Request>, n: nat)
    requires n < |reqs|
  {
    var s := HandleAll(reqs[..n]);
    Handle(s, reqs[n]).1.Done? ==> Clear(s, reqs[n])
  }

  ghost predicate ApartAt(reqs: seq<Request>, n: nat)
    requires n <= |reqs|
  {
    PortsApart(HandleAll(reqs[..n]).entries)
  }

  /** Exactly which runs from the empty store keep the Services apart all along: those of clear requests. */
  lemma {:induction false} RunsStayApartExactly(reqs: seq<Request>)
    ensures (forall n :: 0 <= n <= |reqs| ==> ApartAt(reqs, n)) <==> forall n :: 0 <= n < |reqs| ==> ClearAt(reqs, n)
  {
    hide Handle, PortsApart, Clear;
    if reqs == [] {
      NothingStored();
    } else {
      var m := |reqs| - 1;
      var front := reqs[..m];
      RunsStayApartExactly(front);
      forall n: nat | n <= m ensures ApartAt(front, n) <==> ApartAt(reqs, n) { assert front[..n] == reqs[..n]; }
      forall n: nat | n < m ensures ClearAt(front, n) <==> ClearAt(reqs, n) { assert front[..n] == reqs[..n]; }
      if ApartAt(reqs, m) {
        LastIsClear(reqs);
      }
    }
  }

  lemma LastIsClear(reqs: seq<Request>)
    requires reqs != [] && ApartAt(reqs, |reqs| - 1)
    ensures ApartAt(reqs, |reqs|) <==> ClearAt(reqs, |reqs| - 1)
  {
    hide Handle, PortsApart, Clear;
    var m := |reqs| - 1;
    var s := HandleAll(reqs[..m]);
    assert reqs[..|reqs|] == reqs;
    if Handle(s, reqs[m]).1.Done? {
      RequestKeepsApart(s, reqs[m]);
    } else {
      RefusedChangesNothing(s, reqs[m]);
    }
  }

  lemma NothingStored()
    ensures PortsApart(EMPTY_STORE.entries) && HandleAll([]) == EMPTY_STORE
  {
  }

  /** In particular every run of deletes and of creates of Services whose listings succeed. */
  lemma SequentialCreatesAreDisjoint(reqs: seq<Request>)
    requires forall n :: 0 <= n < |reqs| ==>
      reqs[n].DeleteObject? || (reqs[n].CreateObject? && reqs[n].res.kind == "Service" && reqs[n].listed)
    ensures PortsApart(HandleAll(reqs).entries)
  {
    hide Handle, PortsApart, Clear, ClearAt, ApartAt;
    RunsStayApartExactly(reqs);
    forall n: nat | n < |reqs| ensures ClearAt(reqs, n) { ListedIsClear(reqs, n); }
    assert ApartAt(reqs, |reqs|);
    LastIsApart(reqs);
  }

  lemma ListedIsClear(reqs: seq<Request>, n: nat)
    requires n < |reqs|
    requires reqs[n].DeleteObject? || (reqs[n].CreateObject? && reqs[n].res.kind == "Service" && reqs[n].listed)
    ensures ClearAt(reqs, n)
  {
    hide Handle, HandleAll;
  }

  lemma LastIsApart(reqs: seq<Request>)
    requires ApartAt(reqs, |reqs|)
    ensures PortsApart(HandleAll(reqs).entries)
  {
    hide PortsApart, HandleAll;
    assert reqs[..|reqs|] == reqs;
  }

  // --- Runs that do not stay apart ----------------------------------------------------------------------------

  const HERE := Loc("", "services", Some("default"))
  const SERVICE := Resolved("v1", "Service", true)
  const FIRST_PAIR: Pair := ("TCP", 30000)

  /** A NodePort Service with one port. */
  function ServiceBody(name: string, port: Value): Value {
    Object(map[
      "metadata" := Object(map["name" := String(name)]),
      "spec" := Object(map["type" := String("NodePort"), "ports" := Array([port])])])
  }

  function CreateService(name: string, port: Value, listed: bool, relisted: bool): Request {
    CreateObject(HERE, SERVICE, ServiceBody(name, port), "", "", listed, relisted)
  }

  function PathTo(name: string): string {
    ItemKey(HERE, name).AsPath()
  }

  lemma ServiceBodyIs(name: string, port: Value)
    ensures IsNodePortType(ServiceBody(name, port)) && SpecPorts(ServiceBody(name, port)) == [port]
    ensures NameOf(ServiceBody(name, port)) == Some(name) && ResourceVersion(ServiceBody(name, port)) == None
    ensures NamespaceIn(ServiceBody(name, port)) == "" && !DeletionFinalized(ServiceBody(name, port))
    ensures SERVICES.Covers(PathTo(name))
  {
    var body := ServiceBody(name, port);
    assert body.fields["spec"].fields["ports"] == Array([port]);
    SpecMember(body, "type");
    SpecMember(body, "ports");
    TwoSteps(body, "metadata");
    hide Value.Pointer, Key.AsPath, KeyPrefix.Covers;
    IsCovered(name);
  }

  lemma IsCovered(name: string)
    ensures SERVICES.Covers(PathTo(name))
  {
    assert PathTo(name) == SERVICES.AsPath() + "/" + ("default" + "/" + name);
  }

  lemma PathsDiffer()
    ensures PathTo("a") != PathTo("b")
  {
    assert PathTo("a")[|PathTo("a")| - 1] == 'a' && PathTo("b")[|PathTo("b")| - 1] == 'b';
  }

  /** A create with one passing port under a new path is granted. */
  lemma CreateIsGranted(s: Store, name: string, port: Value, listed: bool, relisted: bool)
    requires PathTo(name) !in s.entries && name != ""
    requires Passes([port], if listed then HeldIn(s.entries) else {}, 0)
    ensures
      var req := CreateService(name, port, listed, relisted);
      && NameFor(req.body, req.suffix) == name && Handle(s, req).1.Done?
      && IsNodePortType(PreparedFor(req)) && SpecPorts(PreparedFor(req)) == [port]
  {
    hide Prepared, DefaultedService, NodePortsOf, HeldIn, HealedFrom, Passes, IsNodePortType, SpecPorts, StrAt, Wire,
      Key.AsPath;
    var req := CreateService(name, port, listed, relisted);
    var used := if listed then HeldIn(s.entries) else {};
    ServiceBodyIs(name, port);
    PreparedSpec(HERE, SERVICE, req.body, name, "");
    SameSpec(PreparedFor(req), req.body);
    PassesExactly([port], used);
    DefaultedShape(PreparedFor(req), used);
    NoOps(s);
  }

  /** What a create with one passing port stores. */
  lemma CreatedOne(s: Store, name: string, port: Value, listed: bool, relisted: bool)
    returns (first: Entry, last: Entry)
    requires PathTo(name) !in s.entries && name != ""
    requires Passes([port], if listed then HeldIn(s.entries) else {}, 0)
    ensures
      var req := CreateService(name, port, listed, relisted);
      && CreatedPath(req) == PathTo(name) && Handle(s, req).1.Done?
      && Handle(s, req).0.entries == s.entries[PathTo(name) := last]
    ensures IsNodePortType(first.value) && forall p :: p in NodePortsOf(first.value) <==>
      ComesToShow([port], if listed then HeldIn(s.entries) else {}, p)
    ensures listed || !relisted ==> last == first
  {
    hide Handle, Prepared, DefaultedService, Healed, NodePortsOf, HeldIn, HeldByOthers, Passes, IsNodePortType,
      SpecPorts, ComesToShow, StrAt, Wire, Key.AsPath, NameOf, GeneratePrefix, SameRest;
    var req := CreateService(name, port, listed, relisted);
    var used := if listed then HeldIn(s.entries) else {};
    CreateIsGranted(s, name, port, listed, relisted);
    first, last := CreatedStores(s, req);
    DefaultedShape(PreparedFor(req), used);
    forall p: Pair ensures p in NodePortsOf(first.value) <==> ComesToShow([port], used, p) {
      ShowsExactly(PreparedFor(req), used, p);
    }
    if listed {
      DefaultedIsFree(PreparedFor(req), used);
      OthersAreHeld(s.entries, PathTo(name));
    }
  }

  lemma AskedPortIs(n: nat, used: set<Pair>)
    requires InNodePortRange(n)
    ensures Passes([AskedPort(n)], used, 0) <==> ("TCP", n) !in used
    ensures forall p :: ComesToShow([AskedPort(n)], used, p) <==> p == ("TCP", n)
    ensures ShownPairs([AskedPort(n)]) == {("TCP", n)}
  {
    var ports := [AskedPort(n)];
    assert ports[..0] == [];
    assert ports[0].Object? && ProtocolOf(ports[0]) == "TCP" && ExplicitNodePort(ports[0]) == Asked(n);
    forall p ensures ComesToShow(ports, used, p) <==> p == ("TCP", n) {
      if p == ("TCP", n) { assert Gets(ports, used, 0, n); }
    }
  }

  /** An open port gets the lowest number where that is free, and passes as long as one is. */
  lemma OpenPortIs(used: set<Pair>, free: nat)
    requires InNodePortRange(free) && ("TCP", free) !in used
    ensures Passes([OpenPort()], used, 0)
    ensures FIRST_PAIR !in used ==> ComesToShow([OpenPort()], used, FIRST_PAIR)
  {
    var ports := [OpenPort()];
    assert ports[..0] == [];
    assert ports[0].Object? && ProtocolOf(ports[0]) == "TCP" && ExplicitNodePort(ports[0]).Unset?;
    assert free in FreeBelow(ports, used, 0, "TCP", NODE_PORT_MAX + 1);
    if FIRST_PAIR !in used {
      assert FreeBelow(ports, used, 0, "TCP", 30000) == {};
      assert Gets(ports, used, 0, 30000);
    }
  }

  const FIRST_SERVICE := CreateService("a", AskedPort(30000), true, true)

  /** A stored Service that holds TCP/30000, alone. */
  lemma AfterFirst() returns (s: Store)
    ensures s == Handle(EMPTY_STORE, FIRST_SERVICE).0
    ensures PathTo("a") in s.entries && s.entries.Keys == {PathTo("a")}
    ensures FIRST_PAIR in NodePortsOf(s.entries[PathTo("a")].value) && HeldIn(s.entries) == {FIRST_PAIR}
    ensures PathTo("b") !in s.entries && HeldByOthers(s.entries, PathTo("b")) == {FIRST_PAIR}
  {
    hide Handle, NodePortsOf, IsNodePortType, Passes, ComesToShow, AskedPort, Key.AsPath;
    s := Handle(EMPTY_STORE, FIRST_SERVICE).0;
    AskedPortIs(30000, {});
    assert HeldIn(EMPTY_STORE.entries) == {};
    var first, last := CreatedOne(EMPTY_STORE, "a", AskedPort(30000), true, true);
    assert s.entries == map[PathTo("a") := last];
    assert NodePortsOf(last.value) == {FIRST_PAIR};
    ServiceBodyIs("a", AskedPort(30000));
    PathsDiffer();
    forall p ensures p in HeldIn(s.entries) <==> p == FIRST_PAIR { assert SERVICES.Covers(PathTo("a")); }
    forall p ensures p in HeldByOthers(s.entries, PathTo("b")) <==> p == FIRST_PAIR {
      assert SERVICES.Covers(PathTo("a"));
    }
  }

  function BlindRun(relisted: bool): seq<Request> {
    [FIRST_SERVICE, CreateService("b", OpenPort(), false, relisted)]
  }

  /**
   * With TCP/30000 held, a create whose listing fails hands it out again; the
   * heal puts that right exactly if its own listing succeeds.
   */
  lemma BlindCreateCollides(relisted: bool)
    ensures
      var s := HandleAll(BlindRun(relisted));
      && s.entries.Keys == {PathTo("a"), PathTo("b")} && FIRST_PAIR in NodePortsOf(s.entries[PathTo("a")].value)
      && (FIRST_PAIR in NodePortsOf(s.entries[PathTo("b")].value) <==> !relisted)
      && (PortsApart(s.entries) <==> relisted)
  {
    hide Handle, NodePortsOf, IsNodePortType, Passes, ComesToShow, OpenPort, Key.AsPath, HeldIn, HeldByOthers,
      PortsApart, KeyPrefix.Covers, CanBeHealed, SpecPorts;
    var run := BlindRun(relisted);
    assert run[..1] == [FIRST_SERVICE] && run[..1][..0] == [] && run[..2] == run;
    var s1 := AfterFirst();
    assert HandleAll(run[..1]) == s1;
    OpenPortIs({}, 30000);
    var first, last := CreatedOne(s1, "b", OpenPort(), false, relisted);
    ServiceBodyIs("b", OpenPort());
    PathsDiffer();
    OpenIsHealed();
    CreatedServiceIsApart(s1, run[1]);
    CreateKeepsApart(s1, run[1]) by { OneIsApart(s1); }
    assert HandleAll(run).entries == s1.entries[PathTo("b") := last];
  }

  lemma OneIsApart(s: Store)
    requires s.entries.Keys == {PathTo("a")}
    ensures PortsApart(s.entries)
  {
    hide Key.AsPath;
  }

  lemma OpenIsHealed()
    ensures CanBeHealed([OpenPort()], {FIRST_PAIR})
  {
    hide Passes, Gets;
    var ports, foreign := [OpenPort()], {FIRST_PAIR};
    assert Gets(ports, {}, 0, 30000) by { FirstGets(); }
    assert OpenPort().fields - {"nodePort"} == OpenPort().fields;
    assert ReopenedAt(ports, foreign, 0, OpenPort());
    assert ReopenedAs(ports, foreign, ports);
    OpenPortIs(foreign, 30001);
  }

  lemma FirstGets()
    ensures Gets([OpenPort()], {}, 0, 30000)
  {
    var ports := [OpenPort()];
    assert ports[..0] == [];
    assert FreeBelow(ports, {}, 0, "TCP", 30000) == {};
  }

  const SECOND_SERVICE := CreateService("b", AskedPort(30001), true, true)

  const PORTS_PATCH := Object(map["spec" := Object(map["ports" := Array([AskedPort(30000)])])])

  /** A PUT, and a merge-patch, that give Service `b` the number of `a`; what JSON Patch would do does not matter. */
  const COPYING_PUT := ReplaceObject(HERE, SERVICE, "b", ServiceBody("b", AskedPort(30000)))

  function CopyingPatch(jsonPatch: Value -> Option<Value>): Request {
    PatchObject(HERE, SERVICE, "b", EditFor(MERGE_PATCH, PORTS_PATCH, jsonPatch))
  }

  /** Two Services, apart. */
  lemma AfterSecond() returns (s: Store)
    ensures s == HandleAll([FIRST_SERVICE, SECOND_SERVICE])
    ensures s.entries.Keys == {PathTo("a"), PathTo("b")} && PortsApart(s.entries)
    ensures FIRST_PAIR in HeldByOthers(s.entries, PathTo("b"))
    ensures IsNodePortType(s.entries[PathTo("b")].value)
  {
    hide Handle, NodePortsOf, IsNodePortType, Passes, ComesToShow, AskedPort, Key.AsPath, HeldIn, PortsApart,
      KeyPrefix.Covers, SpecPorts;
    var run := [FIRST_SERVICE, SECOND_SERVICE];
    assert run[..1] == [FIRST_SERVICE] && run[..1][..0] == [];
    SequentialCreatesAreDisjoint(run);
    var s1 := AfterFirst();
    assert HandleAll(run[..1]) == s1;
    AskedPortIs(30001, {FIRST_PAIR});
    var first, last := CreatedOne(s1, "b", AskedPort(30001), true, true);
    s := HandleAll(run);
    assert s.entries == s1.entries[PathTo("b") := last];
    PathsDiffer();
    ServiceBodyIs("a", AskedPort(30000));
    HeldHasAll(s.entries, PathTo("b"), PathTo("a"));
  }

  /** The patch replaces the ports and keeps the type. */
  lemma PatchSetsPorts(v: Value)
    requires IsNodePortType(v)
    ensures
      var w := Merge(v, PORTS_PATCH, [], NO_STRATEGY);
      IsNodePortType(w) && SpecPorts(w) == [AskedPort(30000)] && w.Get("metadata") == v.Get("metadata")
  {
    var ports := Array([AskedPort(30000)]);
    var patch := Object(map["ports" := ports]);
    var path: Path := [] + ["spec"];
    SpecMember(v, "type");
    var spec := v.Get("spec").value;
    var w := Merge(v, PORTS_PATCH, [], NO_STRATEGY);
    assert PORTS_PATCH.fields["spec"] == patch;
    assert w.Get("spec") == MergeMember(Some(spec), patch, path, NO_STRATEGY);
    assert w.Get("spec") == Some(Merge(spec, patch, path, NO_STRATEGY));
    assert MergeMember(spec.Get("ports"), ports, path + ["ports"], NO_STRATEGY) == Some(ports);
    SpecMember(w, "type");
    SpecMember(w, "ports");
  }

  lemma SameMetadata(v: Value, w: Value)
    requires v.Get("metadata") == w.Get("metadata")
    ensures DeletionFinalized(v) == DeletionFinalized(w) && NamespaceIn(v) == NamespaceIn(w)
  {
    TwoSteps(v, "metadata");
    TwoSteps(w, "metadata");
    assert Gate(v) == Gate(w);
    SameGate(v, w);
  }

  /** With a body that has the number of `a`, a granted PUT or PATCH of `b` is not clear. */
  lemma CopyIsNotClear(s: Store, body: Value)
    requires FIRST_PAIR in HeldByOthers(s.entries, PathTo("b"))
    requires IsNodePortType(body) && SpecPorts(body) == [AskedPort(30000)] && !DeletionFinalized(body)
    ensures !KeepsClear(s, PathTo("b"), body)
  {
    hide AskedPort, Key.AsPath, HeldByOthers, KeyPrefix.Covers;
    ServiceBodyIs("b", AskedPort(30000));
    AskedPortIs(30000, {});
    AsAsked(body);
  }

  lemma PutIsGranted(s: Store)
    requires PathTo("b") in s.entries
    ensures Handle(s, COPYING_PUT).1.Done?
  {
    hide SetMeta, NamespaceIn, Wire, DeletionFinalized, Key.AsPath, ServiceBody, ResourceVersion;
    var body := ServiceBody("b", AskedPort(30000));
    ServiceBodyIs("b", AskedPort(30000));
    assert SetTypeMeta(body, SERVICE).Get("metadata") == body.Get("metadata");
    SameMetadata(SetTypeMeta(body, SERVICE), body);
  }

  lemma PatchIsGranted(s: Store, jsonPatch: Value -> Option<Value>)
    requires PathTo("b") in s.entries
    ensures Handle(s, CopyingPatch(jsonPatch)).1.Done?
    ensures forall v :: CopyingPatch(jsonPatch).edit(v) == Some(Merge(v, PORTS_PATCH, [], NO_STRATEGY))
  {
    hide Merge, SetTypeMeta, Wire, DeletionFinalized, Key.AsPath;
    MergePatchType();
  }

  lemma NotFinished(s: Store)
    requires s == HandleAll([FIRST_SERVICE, SECOND_SERVICE]) && PathTo("b") in s.entries
    ensures !DeletionFinalized(s.entries[PathTo("b")].value)
  {
    hide HandleAll, HasFinalizers, Stamped, RemovalsAreClean, Key.AsPath;
    ServiceBodyIs("a", AskedPort(30000));
    ServiceBodyIs("b", AskedPort(30001));
    GatingHolds([FIRST_SERVICE, SECOND_SERVICE]);
  }

  /** A PUT or a PATCH can give a Service the number of another; neither is refused. */
  lemma ReplaceCanCollide(jsonPatch: Value -> Option<Value>, req: Request)
    requires req in [COPYING_PUT, CopyingPatch(jsonPatch)]
    ensures
      var s := HandleAll([FIRST_SERVICE, SECOND_SERVICE]);
      PortsApart(s.entries) && Handle(s, req).1.Done? && !PortsApart(Handle(s, req).0.entries)
  {
    hide Handle, IsNodePortType, AskedPort, Key.AsPath, PortsApart, KeepsClear, SpecPorts, HeldByOthers, HandleAll,
      Merge, DeletionFinalized;
    var s := AfterSecond();
    if req == COPYING_PUT {
      ServiceBodyIs("b", AskedPort(30000));
      PutIsGranted(s);
      CopyIsNotClear(s, ServiceBody("b", AskedPort(30000)));
      RequestKeepsApart(s, COPYING_PUT);
    } else {
      var b := s.entries[PathTo("b")].value;
      PatchIsGranted(s, jsonPatch);
      PatchSetsPorts(b);
      NotFinished(s);
      SameMetadata(b, Merge(b, PORTS_PATCH, [], NO_STRATEGY));
      CopyIsNotClear(s, Merge(b, PORTS_PATCH, [], NO_STRATEGY));
      RequestKeepsApart(s, CopyingPatch(jsonPatch));
    }
  }
}
