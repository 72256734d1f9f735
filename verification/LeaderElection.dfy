// Leader election by compare-and-swap over one Lease: the decision, the lease
// documents, and every interleaving of electors' reads, clock samples and writes.
module LeaderElection {
  import opened Options
  import opened Json
  import opened Text
  import opened Time
  import opened Storage
  import opened Objects

  datatype LeaseAction = CreateLease | Renew | TakeOver | NotAcquired

  datatype Config = Config(namespace: string, name: string, leaseDuration: nat) {
    function LeaseKey(): Key {
      Key("coordination.k8s.io", "leases", namespace, name)
    }
  }

  // --- Decision and documents ------------------------------------------------------

  function Holder(lease: Value): string {
    OrEmpty(StrAt(lease, ["spec", "holderIdentity"]))
  }

  function TimeAt(lease: Value, member: string): Option<nat> {
    match StrAt(lease, ["spec", member])
    case None => None
    case Some(s) => ParseRfc3339(s)
  }

  /** `renewTime`, or else `acquireTime`, if either parses. */
  function LastRenewed(lease: Value): Option<nat> {
    if TimeAt(lease, "renewTime").Some? then TimeAt(lease, "renewTime") else TimeAt(lease, "acquireTime")
  }

  function OrZero(t: Option<nat>): nat {
    if t.Some? then t.value else 0
  }

  function SaturatingSub(a: nat, b: nat): nat {
    if a >= b then a - b else 0
  }

  function Decide(lease: Option<Value>, identity: string, now: nat, leaseDuration: nat): LeaseAction {
    if lease.None? then CreateLease else
    if Holder(lease.value) == identity then Renew else
    if SaturatingSub(now, OrZero(LastRenewed(lease.value))) >= leaseDuration then TakeOver
    else NotAcquired
  }

  function NewLease(cfg: Config, identity: string, now: nat): Value {
    var t := String(NowRfc3339(now));
    Object(map[
      "apiVersion" := String("coordination.k8s.io/v1"),
      "kind" := String("Lease"),
      "metadata" := Object(map["name" := String(cfg.name), "namespace" := String(cfg.namespace)]),
      "spec" := Object(map[
        "holderIdentity" := String(identity),
        "leaseDurationSeconds" := Integer(cfg.leaseDuration),
        "acquireTime" := t,
        "renewTime" := t,
        "leaseTransitions" := Integer(0)])])
  }

  function RenewLease(lease: Value, now: nat): Value {
    if lease.Pointer(["spec", "renewTime"]).None? then lease else
      TwoSteps(lease, "spec");
      var spec := lease.fields["spec"].fields;
      Object(lease.fields["spec" := Object(spec["renewTime" := String(NowRfc3339(now))])])
  }

  function Transitions(lease: Value): nat {
    match lease.Pointer(["spec", "leaseTransitions"])
    case None => 0
    case Some(v) => OrZero(v.AsU64())
  }

  function TakeoverLease(lease: Value, identity: string, now: nat): Value {
    match lease.Get("spec")
    case None => lease
    case Some(spec) =>
      if !spec.Object? then lease else
        var t := String(NowRfc3339(now));
        Object(lease.fields["spec" := Object(spec.fields[
          "holderIdentity" := String(identity)][
          "acquireTime" := t][
          "renewTime" := t][
          "leaseTransitions" := Integer((Transitions(lease) + 1) % U64_LIMIT)])])
  }

  /** A lease document as the electors write it, with both times before the year 10000. */
  predicate IsLease(lease: Value) {
    && HasMeta(lease)
    && lease.Get("spec").Some? && lease.Get("spec").value.Object?
    && StrAt(lease, ["spec", "holderIdentity"]).Some?
    && TimeAt(lease, "renewTime").Some?
    && TimeAt(lease, "acquireTime").Some?
  }

  function Renewed(lease: Value): nat {
    OrZero(LastRenewed(lease))
  }

  function Acquired(lease: Value): nat {
    OrZero(TimeAt(lease, "acquireTime"))
  }

  /** Nothing differs but the named members of `spec`. */
  ghost predicate ChangesInSpec(v: Value, w: Value, members: set<string>) {
    && (forall k :: k != "spec" ==> w.Get(k) == v.Get(k))
    && forall k :: k !in members ==> w.Pointer(["spec", k]) == v.Pointer(["spec", k])
  }

  lemma NewLeaseIs(cfg: Config, identity: string, now: nat)
    requires now < YEAR_10000
    ensures
      var l := NewLease(cfg, identity, now);
      IsLease(l) && Holder(l) == identity && Renewed(l) == Acquired(l) == now && Transitions(l) == 0
    ensures
      var l := NewLease(cfg, identity, now);
      && StrAt(l, ["metadata", "name"]) == Some(cfg.name) && NamespaceIn(l) == cfg.namespace
      && l.Get("apiVersion") == Some(String("coordination.k8s.io/v1")) && l.Get("kind") == Some(String("Lease"))
      && l.Pointer(["spec", "leaseDurationSeconds"]) == Some(Integer(cfg.leaseDuration))
  {
    TwoSteps(NewLease(cfg, identity, now), "metadata");
    var l := NewLease(cfg, identity, now);
    hide NowRfc3339, ParseRfc3339;
    ParseOfNow(now);
    TwoSteps(l, "spec");
  }

  lemma RenewLeaseIs(lease: Value, now: nat)
    requires IsLease(lease) && now < YEAR_10000
    ensures
      var l := RenewLease(lease, now);
      && IsLease(l) && Holder(l) == Holder(lease) && Renewed(l) == now && Acquired(l) == Acquired(lease)
      && Transitions(l) == Transitions(lease)
    ensures ChangesInSpec(lease, RenewLease(lease, now), {"renewTime"})
  {
    hide NowRfc3339, ParseRfc3339;
    ParseOfNow(now);
    TwoSteps(lease, "spec");
    TwoSteps(RenewLease(lease, now), "spec");
  }

  lemma TakeoverLeaseIs(lease: Value, identity: string, now: nat)
    requires IsLease(lease) && now < YEAR_10000
    ensures
      var l := TakeoverLease(lease, identity, now);
      && IsLease(l) && Holder(l) == identity && Renewed(l) == Acquired(l) == now
      && Transitions(l) == (Transitions(lease) + 1) % U64_LIMIT
    ensures
      ChangesInSpec(lease, TakeoverLease(lease, identity, now),
        {"holderIdentity", "acquireTime", "renewTime", "leaseTransitions"})
  {
    hide NowRfc3339, ParseRfc3339;
    ParseOfNow(now);
    TwoSteps(lease, "spec");
    TwoSteps(TakeoverLease(lease, identity, now), "spec");
  }

  /** The client's projection does not touch the spec. */
  lemma ProjectedLeaseIs(entry: Entry, namespace: Option<string>)
    requires IsLease(entry.value) && entry.modRevision < U64_LIMIT
    ensures
      var l := Project(entry, namespace);
      && IsLease(l) && Holder(l) == Holder(entry.value) && Renewed(l) == Renewed(entry.value)
      && Acquired(l) == Acquired(entry.value) && Transitions(l) == Transitions(entry.value)
      && ResourceVersion(l) == Some(entry.modRevision)
  {
    ProjectCarriesRevision(entry, namespace);
    TwoSteps(entry.value, "spec");
    TwoSteps(Project(entry, namespace), "spec");
  }

  /** Nor does the uid that the client stamps on what it creates. */
  lemma StampedLeaseIs(lease: Value, uid: string)
    requires IsLease(lease)
    ensures
      var l := EnsureUid(lease, uid);
      && IsLease(l) && Holder(l) == Holder(lease) && Renewed(l) == Renewed(lease)
      && Acquired(l) == Acquired(lease) && Transitions(l) == Transitions(lease)
  {
    hide ParseRfc3339;
    TwoSteps(lease, "spec");
    TwoSteps(EnsureUid(lease, uid), "spec");
    UidKeepsTheRest(lease, uid);
    hide EnsureUid;
  }

  // --- One attempt, split at its await points ----------------------------------------

  /** Where an elector is: between attempts, after the read, after the clock, after the attempt. */
  datatype Phase =
    | Idle
    | Got(existing: Option<Value>)
    | Sampled(existing: Option<Value>, now: nat)
    | Returned(leader: bool, now: nat)

  /** The lease as the client reads it. */
  function ReadLease(store: Store, cfg: Config): Option<Value> {
    match store.Get(cfg.LeaseKey().AsPath())
    case None => None
    case Some(entry) => Some(Project(entry, if cfg.namespace == "" then None else Some(cfg.namespace)))
  }

  /** A lost race is "not leader"; any other error is passed on. */
  function Answer(r: Result<Entry, StorageError>, lost: set<StorageError>): Result<bool, StorageError> {
    match r
    case Ok(_) => Ok(true)
    case Err(e) => if e in lost then Ok(false) else Err(e)
  }

  /**
   * The rest of `try_acquire_or_renew` once the lease is read and the clock
   * sampled; `uid` is what the client stamps on a lease it creates.
   */
  function Land(store: Store, cfg: Config, identity: string, existing: Option<Value>, now: nat, uid: string)
    : (Store, Result<bool, StorageError>)
  {
    match Decide(existing, identity, now, cfg.leaseDuration)
    case NotAcquired => (store, Ok(false))
    case CreateLease =>
      var (next, r) := store.Create(cfg.LeaseKey(), EnsureUid(NewLease(cfg, identity, now), uid));
      (next, Answer(r, {AlreadyExists, Conflict}))
    case Renew =>
      if SaturatingSub(now, Renewed(existing.value)) < cfg.leaseDuration / 2 then (store, Ok(true)) else
        var rv := OrZero(ResourceVersion(existing.value));
        var (next, r) := store.Update(cfg.LeaseKey(), RenewLease(existing.value, now), Some(rv));
        (next, Answer(r, {Conflict}))
    case TakeOver =>
      var rv := OrZero(ResourceVersion(existing.value));
      var (next, r) := store.Update(cfg.LeaseKey(), TakeoverLease(existing.value, identity, now), Some(rv));
      (next, Answer(r, {Conflict}))
  }

  /** An elector that runs one whole attempt with nobody in between. */
  class LeaderElector {
    const cfg: Config
    const identity: string

    constructor (cfg: Config, identity: string)
      ensures this.cfg == cfg && this.identity == identity
    {
      this.cfg, this.identity := cfg, identity;
    }

    method TryAcquireOrRenew(store: EmbeddedStorage, now: nat, uid: string) returns (leader: Result<bool, StorageError>)
      requires store.State().Valid()
      modifies store
      ensures store.State().Valid()
      ensures
        var before := old(store.State());
        (store.State(), leader) == Land(before, cfg, identity, ReadLease(before, cfg), now, uid)
      ensures Readable(cfg, old(store.State())) ==>
        var before := old(store.State());
        leader == Ok(
          || !HasLease(cfg, before) || Holder(LeaseOf(cfg, before)) == identity
          || cfg.leaseDuration == 0 || now >= Renewed(LeaseOf(cfg, before)) + cfg.leaseDuration)
    {
      if Readable(cfg, store.State()) {
        UndisturbedAttempt(cfg, store.State(), identity, now, uid);
      }
      hide NewLease, RenewLease, TakeoverLease, NowRfc3339, EnsureUid, Readable;
      var key := cfg.LeaseKey();
      var entry := store.Get(key.AsPath());
      var existing := ReadLease(store.State(), cfg);
      match Decide(existing, identity, now, cfg.leaseDuration) {
        case NotAcquired =>
          return Ok(false);
        case CreateLease =>
          var r := store.Create(key, EnsureUid(NewLease(cfg, identity, now), uid));
          leader := Answer(r, {AlreadyExists, Conflict});
        case Renew =>
          if SaturatingSub(now, Renewed(existing.value)) < cfg.leaseDuration / 2 { return Ok(true); }
          var rv := OrZero(ResourceVersion(existing.value));
          var r := store.Update(key, RenewLease(existing.value, now), Some(rv));
          leader := Answer(r, {Conflict});
        case TakeOver =>
          var rv := OrZero(ResourceVersion(existing.value));
          var r := store.Update(key, TakeoverLease(existing.value, identity, now), Some(rv));
          leader := Answer(r, {Conflict});
      }
    }
  }

  // --- Every interleaving ---------------------------------------------------------------

  /** `flags[a] == t`: elector `a` has published "leader" from an attempt that sampled `t`. */
  datatype System = System(store: Store, clock: nat, phases: map<string, Phase>, flags: map<string, nat>)

  datatype Action =
    | Tick(to: nat)
    | ReadStep(id: string)
    | SampleStep(id: string)
    | LandStep(id: string, uid: string)
    | PublishStep(id: string)
    | HaltStep(id: string)
    | OtherWrite(op: Op)

  function OpKey(op: Op): Key {
    match op
    case DoCreate(key, _) => key
    case DoUpdate(key, _, _) => key
    case DoRemove(key, _) => key
  }

  /** One atomic step; `Idle` is where an elector starts and where publishing leaves it. */
  ghost predicate Step(cfg: Config, s: System, a: Action, s': System) {
    match a
    case Tick(to) => s.clock <= to && s' == s.(clock := to)
    case ReadStep(id) =>
      && id in s.phases && s.phases[id].Idle?
      && s' == s.(phases := s.phases[id := Got(ReadLease(s.store, cfg))])
    case SampleStep(id) =>
      && id in s.phases && s.phases[id].Got?
      && s' == s.(phases := s.phases[id := Sampled(s.phases[id].existing, s.clock)])
    case LandStep(id, uid) =>
      // the retry loop publishes an error as "not leader"
      && id in s.phases && s.phases[id].Sampled?
      && var (store, r) := Land(s.store, cfg, id, s.phases[id].existing, s.phases[id].now, uid);
         s' == s.(store := store, phases := s.phases[id := Returned(r == Ok(true), s.phases[id].now)])
    case PublishStep(id) =>
      && id in s.phases && s.phases[id].Returned?
      && s' == s.(phases := s.phases[id := Idle],
                  flags := if s.phases[id].leader then s.flags[id := s.phases[id].now] else s.flags - {id})
    case HaltStep(id) => s' == s.(phases := s.phases - {id}, flags := s.flags - {id})
    case OtherWrite(op) =>
      OpKey(op).AsPath() != cfg.LeaseKey().AsPath() && s' == s.(store := Apply(s.store, op))
  }

  ghost predicate Init(cfg: Config, s: System) {
    && s.store.Valid()
    && (forall i :: 0 <= i < |s.store.log| ==> s.store.log[i].Path() != cfg.LeaseKey().AsPath())
    && (forall id :: id in s.phases ==> s.phases[id].Idle?)
    && s.flags == map[]
  }

  ghost predicate IsRun(cfg: Config, run: seq<System>, acts: seq<Action>) {
    && |run| == |acts| + 1 && Init(cfg, run[0])
    && forall i :: 0 <= i < |acts| ==> Step(cfg, run[i], acts[i], run[i + 1])
  }

  /** Clocks that still print in four-digit years, revisions that still fit 64 bits. */
  predicate InRange(s: System) {
    s.clock < YEAR_10000 && s.store.revision < U64_LIMIT
  }

  // --- What every step keeps --------------------------------------------------------------

  ghost predicate HasLease(cfg: Config, store: Store) {
    cfg.LeaseKey().AsPath() in store.entries
  }

  ghost function LeaseOf(cfg: Config, store: Store): Value
    requires HasLease(cfg, store)
  {
    store.entries[cfg.LeaseKey().AsPath()].value
  }

  /** `v` is the projection of the lease as it was written at the revision it carries. */
  ghost predicate Snapshot(cfg: Config, store: Store, v: Value) {
    var r := OrZero(ResourceVersion(v));
    && 1 <= r <= |store.log| && store.log[r - 1].Put? && store.log[r - 1].Path() == cfg.LeaseKey().AsPath()
    && v == Project(store.log[r - 1].entry, if cfg.namespace == "" then None else Some(cfg.namespace))
  }

  /** What an elector that saw its own lease can still rely on when others have moved since. */
  ghost predicate StillMine(cfg: Config, store: Store, id: string, seen: Value)
    requires HasLease(cfg, store)
  {
    var lease := LeaseOf(cfg, store);
    Holder(seen) == id ==>
      || (Holder(lease) == id && Renewed(lease) >= Renewed(seen))
      || Renewed(lease) >= Renewed(seen) + cfg.leaseDuration
  }

  /** The first decision time at which another elector may take over after a grant sampled at `t`. */
  function TakeoverBound(cfg: Config, t: nat): nat {
    t + cfg.leaseDuration - cfg.leaseDuration / 2
  }

  /** A grant to `id` sampled at `t` still holds, or the lease was taken over no earlier than the bound. */
  ghost predicate Granted(cfg: Config, store: Store, id: string, t: nat) {
    HasLease(cfg, store) &&
    var lease := LeaseOf(cfg, store);
    || (Holder(lease) == id && Renewed(lease) + cfg.leaseDuration >= TakeoverBound(cfg, t))
    || Renewed(lease) >= TakeoverBound(cfg, t)
  }

  ghost predicate SeenOk(cfg: Config, store: Store, id: string, seen: Option<Value>, upTo: nat) {
    seen.Some? ==>
      && HasLease(cfg, store) && Snapshot(cfg, store, seen.value)
      && Renewed(seen.value) <= upTo && StillMine(cfg, store, id, seen.value)
  }

  ghost predicate PhaseOk(cfg: Config, s: System, id: string, p: Phase) {
    match p
    case Idle => true
    case Got(existing) => SeenOk(cfg, s.store, id, existing, s.clock)
    case Sampled(existing, now) => now <= s.clock && SeenOk(cfg, s.store, id, existing, now)
    case Returned(leader, now) => now <= s.clock && (leader ==> Granted(cfg, s.store, id, now))
  }

  ghost predicate Inv(cfg: Config, s: System) {
    && s.store.Valid()
    && LeasesLogged(cfg, s.store)
    && (HasLease(cfg, s.store) ==>
          var lease := LeaseOf(cfg, s.store);
          IsLease(lease) && Acquired(lease) <= Renewed(lease) <= s.clock)
    && (forall id :: id in s.phases ==> PhaseOk(cfg, s, id, s.phases[id]))
    && (forall id :: id in s.flags ==> Granted(cfg, s.store, id, s.flags[id]))
  }

  /** Every write under the lease path was a lease; it was never deleted. */
  ghost predicate LeasesLogged(cfg: Config, store: Store) {
    forall i :: 0 <= i < |store.log| && store.log[i].Path() == cfg.LeaseKey().AsPath() ==>
      store.log[i].Put? && IsLease(store.log[i].entry.value)
  }

  /** How one write may change the lease: a fresh one, a renewal by its holder, or a takeover once expired. */
  ghost predicate LeaseChange(cfg: Config, prior: Option<Value>, lease: Value, id: string, now: nat) {
    && IsLease(lease) && Holder(lease) == id && Renewed(lease) == now
    && match prior
       case None => Acquired(lease) == now && Transitions(lease) == 0
       case Some(l) =>
         if Holder(l) == id then
           Acquired(lease) == Acquired(l) && Transitions(lease) == Transitions(l) && now >= Renewed(l)
         else
           && Acquired(lease) == now && Transitions(lease) == (Transitions(l) + 1) % U64_LIMIT
           && now >= Renewed(l) + cfg.leaseDuration
  }

  ghost function CurrentLease(cfg: Config, store: Store): Option<Value> {
    if HasLease(cfg, store) then Some(LeaseOf(cfg, store)) else None
  }

  ghost predicate LeaseMoved(cfg: Config, before: Store, after: Store, id: string, now: nat) {
    && after.Valid() && LeasesLogged(cfg, after) && HasLease(cfg, after)
    && |after.log| == |before.log| + 1 && after.log[..|before.log|] == before.log
    && LeaseChange(cfg, CurrentLease(cfg, before), LeaseOf(cfg, after), id, now)
  }

  /** Nothing happened, or one legitimate change; "leader" means that the lease says so. */
  ghost predicate LandsWell(cfg: Config, before: Store, id: string, now: nat, after: Store,
          r: Result<bool, StorageError>)
  {
    && (after == before || LeaseMoved(cfg, before, after, id, now))
    && (after != before ==> r == Ok(true))
    && (r == Ok(true) ==> Granted(cfg, after, id, now))
  }

  lemma LandEffect(cfg: Config, s: System, id: string, uid: string)
    requires Inv(cfg, s) && InRange(s) && id in s.phases && s.phases[id].Sampled?
    ensures
      var p := s.phases[id];
      var (store, r) := Land(s.store, cfg, id, p.existing, p.now, uid);
      LandsWell(cfg, s.store, id, p.now, store, r)
  {
    hide LeaseMoved, IsLease, Holder, LastRenewed, Acquired, Transitions, Replay;
    var p := s.phases[id];
    assert PhaseOk(cfg, s, id, p);
    match Decide(p.existing, id, p.now, cfg.leaseDuration) {
      case NotAcquired =>
      case CreateLease => CreateLands(cfg, s.store, id, p.now, uid);
      case Renew => RenewLands(cfg, s.store, id, p.existing.value, p.now);
      case TakeOver => TakeoverLands(cfg, s.store, id, p.existing.value, p.now);
    }
  }

  lemma CreateLands(cfg: Config, store: Store, id: string, now: nat, uid: string)
    requires store.Valid() && LeasesLogged(cfg, store) && now < YEAR_10000
    ensures var (next, r) := Land(store, cfg, id, None, now, uid); LandsWell(cfg, store, id, now, next, r)
  {
    hide NewLease, NowRfc3339, ParseRfc3339, IsLease, Holder, LastRenewed, Acquired, Transitions, Replay, EnsureUid;
    NewLeaseIs(cfg, id, now);
    StampedLeaseIs(NewLease(cfg, id, now), uid);
    LandWrites(cfg, store, DoCreate(cfg.LeaseKey(), EnsureUid(NewLease(cfg, id, now), uid)));
  }

  lemma RenewLands(cfg: Config, store: Store, id: string, seen: Value, now: nat)
    requires store.Valid() && LeasesLogged(cfg, store) && now < YEAR_10000 && store.revision < U64_LIMIT
    requires SeenOk(cfg, store, id, Some(seen), now) && Holder(seen) == id
    ensures var (next, r) := Land(store, cfg, id, Some(seen), now, ""); LandsWell(cfg, store, id, now, next, r)
  {
    hide RenewLease, Snapshot, IsLease, Holder, LastRenewed, Acquired, Transitions, ResourceVersion, Replay;
    SnapshotIs(cfg, store, seen);
    RenewLeaseIs(seen, now);
    LandWrites(cfg, store, DoUpdate(cfg.LeaseKey(), RenewLease(seen, now), Some(OrZero(ResourceVersion(seen)))));
  }

  lemma TakeoverLands(cfg: Config, store: Store, id: string, seen: Value, now: nat)
    requires store.Valid() && LeasesLogged(cfg, store) && now < YEAR_10000 && store.revision < U64_LIMIT
    requires SeenOk(cfg, store, id, Some(seen), now) && Decide(Some(seen), id, now, cfg.leaseDuration) == TakeOver
    ensures var (next, r) := Land(store, cfg, id, Some(seen), now, ""); LandsWell(cfg, store, id, now, next, r)
  {
    hide TakeoverLease, Snapshot, IsLease, Holder, LastRenewed, Acquired, Transitions, ResourceVersion, Replay;
    SnapshotIs(cfg, store, seen);
    TakeoverLeaseIs(seen, id, now);
    var op := DoUpdate(cfg.LeaseKey(), TakeoverLease(seen, id, now), Some(OrZero(ResourceVersion(seen))));
    LandWrites(cfg, store, op);
  }

  /** A snapshot is a lease, and the current one if its revision is current. */
  lemma SnapshotIs(cfg: Config, store: Store, v: Value)
    requires store.Valid() && LeasesLogged(cfg, store) && store.revision < U64_LIMIT
    requires Snapshot(cfg, store, v) && HasLease(cfg, store)
    ensures IsLease(v)
    ensures store.entries[cfg.LeaseKey().AsPath()].modRevision == OrZero(ResourceVersion(v)) ==>
      var lease := LeaseOf(cfg, store);
      && Holder(v) == Holder(lease) && Renewed(v) == Renewed(lease)
      && Acquired(v) == Acquired(lease) && Transitions(v) == Transitions(lease)
  {
    hide Project, NowRfc3339, ParseRfc3339, IsLease, Holder, LastRenewed, Acquired, Transitions, ResourceVersion,
      Replay;
    var r := OrZero(ResourceVersion(v));
    var seen := store.log[r - 1].entry;
    assert store.log[r - 1].Revision() == r;
    ProjectedLeaseIs(seen, if cfg.namespace == "" then None else Some(cfg.namespace));
    if store.entries[cfg.LeaseKey().AsPath()].modRevision == r {
      SameRevisionSameEntry(store, cfg.LeaseKey().AsPath(), seen);
    }
  }

  /** A write of a lease document keeps the store and its log in order. */
  lemma LandWrites(cfg: Config, store: Store, op: Op)
    requires store.Valid() && LeasesLogged(cfg, store)
    requires op.DoCreate? || op.DoUpdate?
    requires op.key == cfg.LeaseKey() && IsLease(op.value)
    ensures
      var store' := Apply(store, op);
      store' == store ||
      (&& store'.Valid() && LeasesLogged(cfg, store') && HasLease(cfg, store') && LeaseOf(cfg, store') == op.value
       && |store'.log| == |store.log| + 1 && store'.log[..|store.log|] == store.log)
  {
    hide IsLease, Replay;
    ApplyKeepsValid(store, op);
    var store' := Apply(store, op);
    if store' != store {
      forall i | 0 <= i < |store'.log| && store'.log[i].Path() == cfg.LeaseKey().AsPath()
        ensures store'.log[i].Put? && IsLease(store'.log[i].entry.value)
      {
        if i < |store.log| { assert store'.log[i] == store'.log[..|store.log|][i] == store.log[i]; }
      }
    }
  }

  /** What any step does to a lease that is there: keep it, renew it, or pass it on after it expired. */
  ghost predicate LeaseAdvances(cfg: Config, before: Store, after: Store) {
    && |before.log| <= |after.log| && after.log[..|before.log|] == before.log
    && (HasLease(cfg, before) ==>
          && HasLease(cfg, after)
          && var prior, lease := LeaseOf(cfg, before), LeaseOf(cfg, after);
             if Holder(prior) == Holder(lease) then Renewed(lease) >= Renewed(prior)
             else Renewed(lease) >= Renewed(prior) + cfg.leaseDuration)
  }

  /** Snapshots and grants survive whatever others do to the lease. */
  lemma PhaseStable(cfg: Config, s: System, s': System, id: string, p: Phase)
    requires LeaseAdvances(cfg, s.store, s'.store) && s.clock <= s'.clock
    requires PhaseOk(cfg, s, id, p)
    ensures PhaseOk(cfg, s', id, p)
  {
  }

  lemma GrantStable(cfg: Config, before: Store, after: Store, id: string, t: nat)
    requires LeaseAdvances(cfg, before, after) && Granted(cfg, before, id, t)
    ensures Granted(cfg, after, id, t)
  {
  }

  lemma OtherWriteKeepsLease(cfg: Config, store: Store, op: Op)
    requires store.Valid() && LeasesLogged(cfg, store) && OpKey(op).AsPath() != cfg.LeaseKey().AsPath()
    ensures Apply(store, op).Valid() && LeasesLogged(cfg, Apply(store, op))
    ensures CurrentLease(cfg, Apply(store, op)) == CurrentLease(cfg, store)
    ensures LeaseAdvances(cfg, store, Apply(store, op))
  {
    hide IsLease, Replay, Holder, LastRenewed;
    ApplyKeepsValid(store, op);
    var store' := Apply(store, op);
    forall i | 0 <= i < |store'.log| && store'.log[i].Path() == cfg.LeaseKey().AsPath()
      ensures store'.log[i].Put? && IsLease(store'.log[i].entry.value)
    {
      if i < |store.log| { assert store'.log[i] == store'.log[..|store.log|][i] == store.log[i]; }
    }
    assert store.log[..|store.log|] == store.log;
  }

  /** A fresh read is a snapshot of the current lease. */
  lemma ReadIsSnapshot(cfg: Config, s: System, id: string)
    requires Inv(cfg, s) && InRange(s)
    ensures SeenOk(cfg, s.store, id, ReadLease(s.store, cfg), s.clock)
  {
    hide Project, IsLease, Holder, LastRenewed, Acquired, Transitions, ResourceVersion, Replay;
    if HasLease(cfg, s.store) {
      var entry := s.store.entries[cfg.LeaseKey().AsPath()];
      LiveEntryIsLogged(s.store.log, cfg.LeaseKey().AsPath());
      ProjectedLeaseIs(entry, if cfg.namespace == "" then None else Some(cfg.namespace));
    }
  }

  lemma InvInit(cfg: Config, s: System)
    requires Init(cfg, s)
    ensures Inv(cfg, s) && !HasLease(cfg, s.store)
  {
    if HasLease(cfg, s.store) {
      LiveEntryIsLogged(s.store.log, cfg.LeaseKey().AsPath());
    }
  }

  /** Every step keeps the invariant, and advances the lease. */
  lemma InvStep(cfg: Config, s: System, a: Action, s': System)
    requires Inv(cfg, s) && Step(cfg, s, a, s') && InRange(s')
    ensures Inv(cfg, s') && LeaseAdvances(cfg, s.store, s'.store) && InRange(s)
  {
    hide Land, ReadLease, IsLease, Holder, LastRenewed, Acquired, Transitions, Replay, Snapshot, Apply;
    assert s.store.log[..|s.store.log|] == s.store.log;
    match a {
      case LandStep(id, uid) =>
        assert s.store.revision <= s'.store.revision by { LandGrows(cfg, s, id, uid); }
        LandEffect(cfg, s, id, uid);
      case OtherWrite(op) =>
        OtherWriteKeepsLease(cfg, s.store, op);
      case ReadStep(id) =>
        ReadIsSnapshot(cfg, s, id);
      case _ =>
    }
    assert LeaseAdvances(cfg, s.store, s'.store);
    forall id | id in s.phases { PhaseStable(cfg, s, s', id, s.phases[id]); }
    forall id | id in s.flags { GrantStable(cfg, s.store, s'.store, id, s.flags[id]); }
  }

  lemma LandGrows(cfg: Config, s: System, id: string, uid: string)
    requires id in s.phases && s.phases[id].Sampled?
    ensures s.store.revision <= Land(s.store, cfg, id, s.phases[id].existing, s.phases[id].now, uid).0.revision
  {
  }

  // --- Over whole runs --------------------------------------------------------------------

  lemma {:induction false} RangeOfPrefix(cfg: Config, run: seq<System>, acts: seq<Action>, n: nat, m: nat)
    requires IsRun(cfg, run, acts) && n <= m <= |acts| && InRange(run[m])
    ensures InRange(run[n])
    decreases m - n
  {
    if n < m {
      RangeOfPrefix(cfg, run, acts, n + 1, m);
      assert Step(cfg, run[n], acts[n], run[n + 1]);
      StepGrows(cfg, run[n], acts[n], run[n + 1]);
    }
  }

  lemma StepGrows(cfg: Config, s: System, a: Action, s': System)
    requires Step(cfg, s, a, s')
    ensures s.clock <= s'.clock && s.store.revision <= s'.store.revision
  {
    hide NewLease, RenewLease, TakeoverLease, ReadLease, Decide, Renewed, ResourceVersion;
  }

  lemma {:induction false} RunInv(cfg: Config, run: seq<System>, acts: seq<Action>, n: nat)
    requires IsRun(cfg, run, acts) && n <= |acts| && InRange(run[|acts|])
    ensures Inv(cfg, run[n]) && InRange(run[n])
  {
    hide Step, Init, Inv;
    RangeOfPrefix(cfg, run, acts, n, |acts|);
    if n == 0 {
      InvInit(cfg, run[0]);
    } else {
      RunInv(cfg, run, acts, n - 1);
      InvStep(cfg, run[n - 1], acts[n - 1], run[n]);
    }
  }

  lemma {:induction false} RunGranted(cfg: Config, run: seq<System>, acts: seq<Action>, m: nat, n: nat, id: string,
          t: nat)
    requires IsRun(cfg, run, acts) && m <= n <= |acts| && InRange(run[|acts|])
    requires Granted(cfg, run[m].store, id, t)
    ensures Granted(cfg, run[n].store, id, t)
    decreases n
  {
    hide Step, Init, Inv, Granted;
    if m < n {
      RunGranted(cfg, run, acts, m, n - 1, id, t);
      RunInv(cfg, run, acts, n - 1);
      RunInv(cfg, run, acts, n);
      InvStep(cfg, run[n - 1], acts[n - 1], run[n]);
      GrantStable(cfg, run[n - 1].store, run[n].store, id, t);
    }
  }

  /** An attempt of `id` lands having sampled the clock at `t`. */
  ghost predicate Lands(s: System, act: Action, id: string, t: nat) {
    act.LandStep? && act.id == id && id in s.phases && s.phases[id].Sampled? && s.phases[id].now == t
  }

  /** It returns "leader". */
  ghost predicate Grants(s: System, act: Action, s': System, id: string, t: nat) {
    Lands(s, act, id, t) && id in s'.phases && s'.phases[id] == Returned(true, t)
  }

  /** It hands an existing lease from another holder to `id`. */
  ghost predicate TakesOver(cfg: Config, s: System, act: Action, s': System, id: string, t: nat) {
    && Lands(s, act, id, t) && HasLease(cfg, s.store) && HasLease(cfg, s'.store)
    && Holder(LeaseOf(cfg, s.store)) != id && Holder(LeaseOf(cfg, s'.store)) == id
  }

  /**
   * Leadership exclusivity: in every run, an attempt of `a` that returned
   * "leader" with sampled time `t` rules out every later-landing takeover by
   * another elector decided before `t + D - D/2`.
   */
  lemma {:induction false} NoEarlyTakeover(cfg: Config, run: seq<System>, acts: seq<Action>, i: nat, j: nat,
                                           a: string, t: nat, b: string, u: nat)
    requires IsRun(cfg, run, acts) && InRange(run[|acts|]) && i < j < |acts| && a != b
    ensures Grants(run[i], acts[i], run[i + 1], a, t) && TakesOver(cfg, run[j], acts[j], run[j + 1], b, u) ==>
      u >= TakeoverBound(cfg, t)
  {
    if Grants(run[i], acts[i], run[i + 1], a, t) && TakesOver(cfg, run[j], acts[j], run[j + 1], b, u) {
      hide Step, Init, Inv, Grants, TakesOver, TakeoverBound, Granted;
      RunInv(cfg, run, acts, i);
      RunInv(cfg, run, acts, j);
      GrantIsGranted(cfg, run[i], acts[i], run[i + 1], a, t);
      RunGranted(cfg, run, acts, i + 1, j, a, t);
      TakeoverIsLate(cfg, run[j], acts[j], run[j + 1], a, t, b, u);
    }
  }

  lemma GrantIsGranted(cfg: Config, s: System, act: Action, s': System, id: string, t: nat)
    requires Inv(cfg, s) && InRange(s) && Step(cfg, s, act, s') && Grants(s, act, s', id, t)
    ensures Granted(cfg, s'.store, id, t)
  {
    hide Inv, Land, Granted;
    LandEffect(cfg, s, id, act.uid);
  }

  lemma TakeoverIsLate(cfg: Config, s: System, act: Action, s': System, a: string, t: nat, b: string, u: nat)
    requires Inv(cfg, s) && InRange(s) && Step(cfg, s, act, s') && a != b
    requires Granted(cfg, s.store, a, t) && TakesOver(cfg, s, act, s', b, u)
    ensures u >= TakeoverBound(cfg, t)
  {
    hide Inv, Land, IsLease, Holder, LastRenewed, Acquired, Transitions, Replay;
    LandEffect(cfg, s, b, act.uid);
  }

  /** While every published leader re-attempts before its bound, at most one is published. */
  lemma AtMostOneLeader(cfg: Config, run: seq<System>, acts: seq<Action>, a: string, b: string)
    requires IsRun(cfg, run, acts) && InRange(run[|acts|])
    requires a in run[|acts|].flags && b in run[|acts|].flags
    requires run[|acts|].clock < TakeoverBound(cfg, run[|acts|].flags[a])
    requires run[|acts|].clock < TakeoverBound(cfg, run[|acts|].flags[b])
    ensures a == b
  {
    hide Step, Init, IsLease, Holder, LastRenewed, Acquired, Transitions, Replay;
    RunInv(cfg, run, acts, |acts|);
  }

  // --- What an undisturbed attempt answers ---------------------------------------------------

  /** The store has no lease, or one as electors write it. */
  ghost predicate Readable(cfg: Config, store: Store) {
    && store.Valid() && store.revision < U64_LIMIT && cfg.LeaseKey().IsValid()
    && (HasLease(cfg, store) ==> IsLease(LeaseOf(cfg, store)))
  }

  /**
   * An attempt with nobody in between is "leader" exactly if there is no lease,
   * the lease is its own, or it has run out; it never fails. It writes nothing
   * exactly if the lease is another's that has not run out, or its own and
   * renewed less than half its duration ago.
   */
  lemma UndisturbedAttempt(cfg: Config, store: Store, id: string, now: nat, uid: string)
    requires Readable(cfg, store)
    ensures
      var (next, answer) := Land(store, cfg, id, ReadLease(store, cfg), now, uid);
      var d := cfg.leaseDuration;
      if !HasLease(cfg, store) then answer == Ok(true) && next != store else
        var lease := LeaseOf(cfg, store);
        if Holder(lease) == id then
          answer == Ok(true) && (next == store <==> d >= 2 && now < Renewed(lease) + d / 2)
        else
          && answer == Ok(d == 0 || now >= Renewed(lease) + d)
          && (next == store <==> d > 0 && now < Renewed(lease) + d)
  {
    hide NewLease, RenewLease, TakeoverLease, Project, NowRfc3339, ParseRfc3339, IsLease, Holder, LastRenewed, Acquired,
      Transitions, ResourceVersion, Replay, Tombstones, EnsureUid;
    if HasLease(cfg, store) {
      var entry := store.entries[cfg.LeaseKey().AsPath()];
      LiveEntryIsLogged(store.log, cfg.LeaseKey().AsPath());
      assert store.log[entry.modRevision - 1].Revision() == entry.modRevision;
      ProjectedLeaseIs(entry, if cfg.namespace == "" then None else Some(cfg.namespace));
    }
  }

  /**
   * What an attempt answers that somebody got ahead of: a lease that is there by
   * now, or at another revision, is a lost race and no error; one that is gone
   * is an error.
   */
  lemma LostRace(cfg: Config, store: Store, id: string, seen: Option<Value>, now: nat, uid: string)
    requires cfg.LeaseKey().IsValid()
    ensures
      var answer := Land(store, cfg, id, seen, now, uid).1;
      && (seen.None? ==> answer == Ok(!HasLease(cfg, store)))
      && (seen.Some? && Land(store, cfg, id, seen, now, uid).0 == store ==>
            || (Holder(seen.value) == id && now < Renewed(seen.value) + cfg.leaseDuration / 2 && answer == Ok(true))
            || (Holder(seen.value) != id && now < Renewed(seen.value) + cfg.leaseDuration && answer == Ok(false))
            || answer == (if HasLease(cfg, store) then Ok(false) else Err(NotFound)))
  {
    hide NewLease, RenewLease, TakeoverLease, EnsureUid, Holder, LastRenewed, ResourceVersion, Key.AsPath;
  }

  /** The lease as it is read: in the namespace asked for, at its revision, and otherwise as it is stored. */
  lemma ReadLeaseIs(cfg: Config, store: Store)
    requires Readable(cfg, store) && HasLease(cfg, store)
    ensures
      var entry := store.entries[cfg.LeaseKey().AsPath()];
      var read := ReadLease(store, cfg);
      && read.Some? && ResourceVersion(read.value) == Some(entry.modRevision)
      && (cfg.namespace != "" ==> NamespaceIn(read.value) == cfg.namespace)
      && (forall k :: k != "metadata" ==> read.value.Get(k) == entry.value.Get(k))
  {
    hide IsLease, NamespaceIn, ResourceVersion, Replay, Tombstones;
    var entry := store.entries[cfg.LeaseKey().AsPath()];
    LiveEntryIsLogged(store.log, cfg.LeaseKey().AsPath());
    assert store.log[entry.modRevision - 1].Revision() == entry.modRevision;
    LeaseHasMeta(entry.value);
    ProjectCarriesRevision(entry, if cfg.namespace == "" then None else Some(cfg.namespace));
    if cfg.namespace != "" {
      ProjectNames(entry, cfg.namespace);
    }
  }

  lemma LeaseHasMeta(lease: Value)
    requires IsLease(lease)
    ensures HasMeta(lease)
  {
  }

  lemma ProjectNames(entry: Entry, namespace: string)
    requires HasMeta(entry.value)
    ensures NamespaceIn(Project(entry, Some(namespace))) == namespace
  {
    var v := SetMeta(entry.value, "resourceVersion", Decimal(entry.modRevision));
    SetMetaGet(entry.value, "resourceVersion", Decimal(entry.modRevision));
    SetMetaGet(v, "namespace", namespace);
  }

  /** The attempt of `id` that is about to land has read what is still there, and that is its own lease. */
  ghost predicate OnOwnLease(cfg: Config, s: System, id: string)
    requires id in s.phases && s.phases[id].Sampled?
  {
    && HasLease(cfg, s.store) && Holder(LeaseOf(cfg, s.store)) == id
    && s.phases[id].existing == ReadLease(s.store, cfg)
  }

  /** It does not give up, and every attempt it lands is on its own lease. */
  ghost predicate HoldsOn(cfg: Config, s: System, a: Action, id: string) {
    && a != HaltStep(id)
    && (a.LandStep? && a.id == id && id in s.phases && s.phases[id].Sampled? ==> OnOwnLease(cfg, s, id))
  }

  /** Published as leader, with no other answer under way. */
  ghost predicate Leads(s: System, id: string) {
    && id in s.flags && id in s.phases
    && (s.phases[id].Returned? ==> s.phases[id].leader)
  }

  /**
   * A leader stays published, whatever the others do, as long as its attempts
   * read and land undisturbed on its own lease.
   */
  lemma {:induction false} LeaderStays(cfg: Config, run: seq<System>, acts: seq<Action>, m: nat, n: nat, id: string)
    requires IsRun(cfg, run, acts) && InRange(run[|acts|]) && m <= n <= |acts| && cfg.LeaseKey().IsValid()
    requires Leads(run[m], id)
    requires forall i :: m <= i < n ==> HoldsOn(cfg, run[i], acts[i], id)
    ensures Leads(run[n], id)
    decreases n
  {
    hide Step, Init, Inv, Leads, HoldsOn;
    if m < n {
      LeaderStays(cfg, run, acts, m, n - 1, id);
      RunInv(cfg, run, acts, n - 1);
      LeadsStep(cfg, run[n - 1], acts[n - 1], run[n], id);
    }
  }

  lemma LeadsStep(cfg: Config, s: System, a: Action, s': System, id: string)
    requires Inv(cfg, s) && InRange(s) && cfg.LeaseKey().IsValid() && Step(cfg, s, a, s')
    requires Leads(s, id) && HoldsOn(cfg, s, a, id)
    ensures Leads(s', id)
  {
    hide Land, ReadLease, IsLease, Holder, LastRenewed, Acquired, Transitions, Replay, Tombstones, Snapshot, Apply;
    if a.LandStep? && a.id == id {
      UndisturbedAttempt(cfg, s.store, id, s.phases[id].now, a.uid);
    }
  }

  /** And an attempt that lands like that publishes its elector, which the next `PublishStep` completes. */
  lemma OwnLeaseIsPublished(cfg: Config, s: System, id: string, uid: string, s': System, s'': System)
    requires Inv(cfg, s) && InRange(s) && cfg.LeaseKey().IsValid()
    requires id in s.phases && s.phases[id].Sampled? && OnOwnLease(cfg, s, id)
    requires Step(cfg, s, LandStep(id, uid), s') && Step(cfg, s', PublishStep(id), s'')
    ensures id in s''.flags && s''.flags[id] == s.phases[id].now
  {
    hide Land, ReadLease, IsLease, Holder, LastRenewed, Acquired, Transitions, Replay, Tombstones, Snapshot, Apply;
    UndisturbedAttempt(cfg, s.store, id, s.phases[id].now, uid);
  }

  /** What `id` published last: whether it is the leader, and nothing before it publishes or once it has given up. */
  ghost function LastPublished(run: seq<System>, acts: seq<Action>, n: nat, id: string): Option<bool>
    requires n <= |acts| < |run|
  {
    if n == 0 then None else
    if acts[n - 1] == HaltStep(id) then None else
    if acts[n - 1] == PublishStep(id) && id in run[n - 1].phases && run[n - 1].phases[id].Returned? then
      Some(run[n - 1].phases[id].leader)
    else LastPublished(run, acts, n - 1, id)
  }

  /** In every run an elector is published as leader exactly if that was its last answer. */
  lemma {:induction false} FlagIsLastAnswer(cfg: Config, run: seq<System>, acts: seq<Action>, n: nat, id: string)
    requires IsRun(cfg, run, acts) && n <= |acts|
    ensures id in run[n].flags <==> LastPublished(run, acts, n, id) == Some(true)
  {
    hide Step;
    if n > 0 {
      FlagIsLastAnswer(cfg, run, acts, n - 1, id);
      assert Step(cfg, run[n - 1], acts[n - 1], run[n]);
      FlagStep(cfg, run[n - 1], acts[n - 1], run[n], id);
    }
  }

  lemma FlagStep(cfg: Config, s: System, a: Action, s': System, id: string)
    requires Step(cfg, s, a, s')
    ensures a != HaltStep(id) && a != PublishStep(id) ==> (id in s'.flags <==> id in s.flags)
    ensures a == HaltStep(id) ==> id !in s'.flags
    ensures a == PublishStep(id) ==>
      id in s.phases && s.phases[id].Returned? && (id in s'.flags <==> s.phases[id].leader)
  {
    hide Land, ReadLease, Apply;
  }

  // --- The history of a lease ------------------------------------------------------------------

  /** The number of times a lease that was there changed its holder. */
  ghost function HolderChanges(cfg: Config, run: seq<System>): nat {
    if |run| < 2 then 0 else
      HolderChanges(cfg, run[..|run| - 1])
      + if HolderMoved(cfg, run[|run| - 2].store, run[|run| - 1].store) then 1 else 0
  }

  ghost predicate HolderMoved(cfg: Config, before: Store, after: Store) {
    HasLease(cfg, before) && HasLease(cfg, after) && Holder(LeaseOf(cfg, before)) != Holder(LeaseOf(cfg, after))
  }

  /** One step of the lease's history. */
  lemma StepHistory(cfg: Config, s: System, a: Action, s': System)
    requires Inv(cfg, s) && Step(cfg, s, a, s') && InRange(s')
    ensures HasLease(cfg, s.store) ==> HasLease(cfg, s'.store)
    ensures HasLease(cfg, s'.store) ==>
      Transitions(LeaseOf(cfg, s'.store)) ==
      if !HasLease(cfg, s.store) then 0
      else (Transitions(LeaseOf(cfg, s.store)) + if HolderMoved(cfg, s.store, s'.store) then 1 else 0) % U64_LIMIT
    ensures HasLease(cfg, s.store) ==>
      Renewed(LeaseOf(cfg, s'.store)) >= Renewed(LeaseOf(cfg, s.store))
    ensures HolderMoved(cfg, s.store, s'.store) ==>
      var id := Holder(LeaseOf(cfg, s'.store));
      && a.LandStep? && a.id == id && id in s.phases && s.phases[id].Sampled?
      && s.phases[id].now == Renewed(LeaseOf(cfg, s'.store))
      && s.phases[id].now >= Renewed(LeaseOf(cfg, s.store)) + cfg.leaseDuration
  {
    hide Land, ReadLease, IsLease, Holder, LastRenewed, Acquired, Replay, Snapshot, Apply, TimeAt;
    InvStep(cfg, s, a, s');
    assert HasLease(cfg, s.store) ==> Transitions(LeaseOf(cfg, s.store)) < U64_LIMIT;
    match a {
      case LandStep(id, uid) => LandEffect(cfg, s, id, uid);
      case OtherWrite(op) => OtherWriteKeepsLease(cfg, s.store, op);
      case _ =>
    }
  }

  /**
   * The lease's history over every run: `leaseTransitions` is the number of
   * holder changes, `acquireTime <= renewTime`, `renewTime` never goes back,
   * and every holder change was decided at least `D` after the replaced renewal.
   */
  lemma {:induction false} LeaseHistory(cfg: Config, run: seq<System>, acts: seq<Action>, n: nat)
    requires IsRun(cfg, run, acts) && InRange(run[|acts|]) && n <= |acts|
    ensures HasLease(cfg, run[n].store) ==>
      && Transitions(LeaseOf(cfg, run[n].store)) == HolderChanges(cfg, run[..n + 1]) % U64_LIMIT
      && Acquired(LeaseOf(cfg, run[n].store)) <= Renewed(LeaseOf(cfg, run[n].store)) <= run[n].clock
    ensures !HasLease(cfg, run[n].store) ==> HolderChanges(cfg, run[..n + 1]) == 0
    ensures forall m :: 0 <= m <= n && HasLease(cfg, run[m].store) ==>
      HasLease(cfg, run[n].store) && Renewed(LeaseOf(cfg, run[m].store)) <= Renewed(LeaseOf(cfg, run[n].store))
    ensures forall m :: 0 <= m < n && HolderMoved(cfg, run[m].store, run[m + 1].store) ==>
      Renewed(LeaseOf(cfg, run[m + 1].store)) >= Renewed(LeaseOf(cfg, run[m].store)) + cfg.leaseDuration
  {
    hide Step, Init, Inv, HasLease, Holder, LastRenewed, Acquired, Transitions, HolderChanges;
    RunInv(cfg, run, acts, n);
    if HasLease(cfg, run[n].store) { LeaseTimes(cfg, run[n]); }
    if n == 0 {
      InvInit(cfg, run[0]);
      NoChangeYet(cfg, run[..1]);
    } else {
      LeaseHistory(cfg, run, acts, n - 1);
      RunInv(cfg, run, acts, n - 1);
      StepHistory(cfg, run[n - 1], acts[n - 1], run[n]);
      ChangesSnoc(cfg, run[..n + 1]);
      assert run[..n + 1][..n] == run[..n];
    }
  }

  lemma LeaseTimes(cfg: Config, s: System)
    requires Inv(cfg, s) && HasLease(cfg, s.store)
    ensures Acquired(LeaseOf(cfg, s.store)) <= Renewed(LeaseOf(cfg, s.store)) <= s.clock
  {
  }

  lemma NoChangeYet(cfg: Config, run: seq<System>)
    requires |run| == 1
    ensures HolderChanges(cfg, run) == 0
  {
  }

  lemma ChangesSnoc(cfg: Config, run: seq<System>)
    requires |run| >= 2
    ensures HolderChanges(cfg, run) == HolderChanges(cfg, run[..|run| - 1])
         + if HolderMoved(cfg, run[|run| - 2].store, run[|run| - 1].store) then 1 else 0
  {
  }

  // --- Where the promises stop --------------------------------------------------------------

  /** From the year 10000 on a lease taken this very second already looks expired. */
  lemma ExpiredFromYear10000(cfg: Config, a: string, b: string, now: nat)
    requires a != b && now < U64_LIMIT && cfg.leaseDuration <= now
    ensures Decide(Some(NewLease(cfg, a, now)), b, now, cfg.leaseDuration) == TakeOver
       <==> cfg.leaseDuration == 0 || now >= YEAR_10000
  {
    hide NowRfc3339, ParseRfc3339;
    ParseOfNow(now);
    TwoSteps(NewLease(cfg, a, now), "spec");
  }

  /** The time that counts: `renewTime` if it parses, or else `acquireTime` if that does. */
  function CountedTime(lease: Value): (s: Option<string>)
    ensures s.Some? ==> ParseRfc3339(s.value).Some? && Shaped(s.value)
  {
    var renew, acquire := StrAt(lease, ["spec", "renewTime"]), StrAt(lease, ["spec", "acquireTime"]);
    if renew.Some? && ParseRfc3339(renew.value).Some? then renew else
    if acquire.Some? && ParseRfc3339(acquire.value).Some? then acquire else None
  }

  lemma CountedIsLastRenewed(lease: Value)
    ensures LastRenewed(lease) ==
      (if CountedTime(lease).None? then None else ParseRfc3339(CountedTime(lease).value))
  {
    hide ParseRfc3339;
  }

  /**
   * When neither time parses, from the duration on; otherwise from the duration
   * after the time that counts, provided that its year, in a date that exists
   * or not, is not before 1970.
   */
  predicate Takeable(lease: Value, now: nat, leaseDuration: nat) {
    var counted := CountedTime(lease);
    || leaseDuration == 0
    || (counted.None? && leaseDuration <= now)
    || (counted.Some? && DateOf(counted.value).y >= 1970 && ParseRfc3339(counted.value).value + leaseDuration <= now)
  }

  /** Exactly which leases of another holder may be taken over. */
  lemma TakeableExactly(lease: Value, identity: string, now: nat, leaseDuration: nat)
    requires Holder(lease) != identity && now < YEAR_10000
    ensures Decide(Some(lease), identity, now, leaseDuration) == TakeOver <==> Takeable(lease, now, leaseDuration)
  {
    CountedIsLastRenewed(lease);
    if CountedTime(lease).Some? {
      WrapsBefore1970(CountedTime(lease).value);
    }
    hide ParseRfc3339, CountedTime, Shaped;
  }

  /** Exactly which of them can not be taken over before the year 10000, however long one waits. */
  lemma StuckExactly(lease: Value, identity: string, leaseDuration: nat)
    requires Holder(lease) != identity
    ensures
      var counted := CountedTime(lease);
      (forall now: nat :: now < YEAR_10000 ==> Decide(Some(lease), identity, now, leaseDuration) != TakeOver) <==>
        && leaseDuration > 0
        && if counted.None? then leaseDuration >= YEAR_10000 else
             || DateOf(counted.value).y < 1970
             || ParseRfc3339(counted.value).value + leaseDuration >= YEAR_10000
  {
    hide Decide, CountedTime, ParseRfc3339, Shaped, Holder;
    var last: nat := YEAR_10000 - 1;
    forall now: nat | now < YEAR_10000
      ensures Decide(Some(lease), identity, now, leaseDuration) == TakeOver <==> Takeable(lease, now, leaseDuration)
    {
      TakeableExactly(lease, identity, now, leaseDuration);
    }
    TakeableExactly(lease, identity, last, leaseDuration);
  }

  /** In particular any lease whose time that counts names a year before 1970. */
  lemma LeaseBefore1970IsStuck(lease: Value, identity: string, now: nat, leaseDuration: nat)
    requires CountedTime(lease).Some? && DateOf(CountedTime(lease).value).y < 1970 && Holder(lease) != identity
    requires leaseDuration > 0 && now < YEAR_10000
    ensures Decide(Some(lease), identity, now, leaseDuration) == NotAcquired
  {
    hide CountedTime, ParseRfc3339, Shaped, Holder, LastRenewed;
    TakeableExactly(lease, identity, now, leaseDuration);
  }

  function HeldLease(member: string, time: string): Value {
    Object(map["spec" := Object(map["holderIdentity" := String("a"), member := String(time)])])
  }

  lemma HeldLeaseIs(member: string, time: string)
    requires member in ["renewTime", "acquireTime"] && ParseRfc3339(time).Some?
    ensures Holder(HeldLease(member, time)) == "a" && CountedTime(HeldLease(member, time)) == Some(time)
  {
    TwoSteps(HeldLease(member, time), "spec");
    hide ParseRfc3339;
  }

  /**
   * For instance one second before 1970, under either member, and even on a day
   * there never was: nobody else ever gets the lease.
   */
  lemma SecondBefore1970(member: string, now: nat, leaseDuration: nat)
    requires member in ["renewTime", "acquireTime"] && leaseDuration > 0 && now < YEAR_10000
    ensures Decide(Some(HeldLease(member, "1969-12-31T23:59:59Z")), "b", now, leaseDuration) == NotAcquired
    ensures Decide(Some(HeldLease(member, "1969-02-31T00:00:00Z")), "b", now, leaseDuration) == NotAcquired
  {
    hide ParseRfc3339, Shaped, HeldLease, CountedTime, Holder;
    OneSecondBefore();
    NoSuchDay();
    HeldLeaseIs(member, "1969-12-31T23:59:59Z");
    HeldLeaseIs(member, "1969-02-31T00:00:00Z");
    LeaseBefore1970IsStuck(HeldLease(member, "1969-12-31T23:59:59Z"), "b", now, leaseDuration);
    LeaseBefore1970IsStuck(HeldLease(member, "1969-02-31T00:00:00Z"), "b", now, leaseDuration);
  }
}
