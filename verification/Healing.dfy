// The bounded compare-and-swap loop that heals a NodePort collision, against the
// store and whatever others write to it meanwhile.
module Healing {
  import opened Options
  import opened Json
  import opened Storage
  import opened NodePorts
  import opened NodePortLaws

  const HEAL_MAX_ATTEMPTS: nat := 5

  const SERVICES := KeyPrefix("", "services", None)

  /** What others write in one round, before each of its store calls, and whether the listing succeeds. */
  datatype Meanwhile = Meanwhile(beforeList: seq<Op>, listed: bool, beforeWrite: seq<Op>, beforeRead: seq<Op>)

  function AfterOps(s: Store, ops: seq<Op>): Store {
    if ops == [] then s else Apply(AfterOps(s, ops[..|ops| - 1]), ops[|ops| - 1])
  }

  /** `e` is a version of the object under `path` that was written to the store. */
  ghost predicate Recorded(s: Store, path: string, e: Entry) {
    PutAt(s.log, e.modRevision, path) && s.log[e.modRevision - 1] == Put(e)
  }

  /** What was written stays on record. */
  lemma {:induction false} RecordStays(s: Store, ops: seq<Op>, path: string, e: Entry)
    requires s.Valid() && Recorded(s, path, e)
    ensures AfterOps(s, ops).Valid() && Recorded(AfterOps(s, ops), path, e)
  {
    hide Replay, Tombstones, Apply;
    if ops != [] {
      var before := AfterOps(s, ops[..|ops| - 1]);
      RecordStays(s, ops[..|ops| - 1], path, e);
      ApplyKeepsValid(before, ops[|ops| - 1]);
      var after := Apply(before, ops[|ops| - 1]);
      assert after != before ==> after.log[..|before.log|][e.modRevision - 1] == after.log[e.modRevision - 1];
    }
  }

  lemma LiveIsRecorded(s: Store, path: string)
    requires s.Valid() && path in s.entries
    ensures Recorded(s, path, s.entries[path])
  {
    LiveEntryIsLogged(s.log, path);
  }

  method Interfere(store: EmbeddedStorage, ops: seq<Op>)
    requires store.State().Valid()
    modifies store
    ensures store.State().Valid() && store.State() == AfterOps(old(store.State()), ops)
  {
    ghost var start := store.State();
    for i := 0 to |ops|
      invariant store.State().Valid() && store.State() == AfterOps(start, ops[..i])
    {
      assert ops[..i + 1][..i] == ops[..i];
      match ops[i] {
        case DoCreate(key, value) => var r := store.Create(key, value);
        case DoUpdate(key, value, ifRevision) => var r := store.Update(key, value, ifRevision);
        case DoRemove(key, ifRevision) => var r := store.Remove(key, ifRevision);
      }
    }
    assert ops[..|ops|] == ops;
  }

  /** What the Services of a store hold, other than the one under `path`. */
  function HeldByOthers(entries: map<string, Entry>, path: string): set<Pair> {
    set q, p | q in entries && SERVICES.Covers(q) && q != path && p in NodePortsOf(entries[q].value) :: p
  }

  lemma {:induction false} ForeignIs(listing: seq<Entry>, path: string)
    ensures forall p :: p in Foreign(listing, path) <==>
      exists i :: 0 <= i < |listing| && listing[i].key != path && p in NodePortsOf(listing[i].value)
  {
    hide NodePortsOf;
    if listing != [] {
      var front := listing[..|listing| - 1];
      ForeignIs(front, path);
      forall p ensures p in Foreign(listing, path) <==>
        exists i :: 0 <= i < |listing| && listing[i].key != path && p in NodePortsOf(listing[i].value)
      {
        if p in Foreign(front, path) {
          var i :| 0 <= i < |front| && front[i].key != path && p in NodePortsOf(front[i].value);
          assert listing[i] == front[i];
        }
        if i :| 0 <= i < |listing| && listing[i].key != path && p in NodePortsOf(listing[i].value) && i < |front| {
          assert front[i] == listing[i];
        }
        assert listing[|front|] == listing[|listing| - 1];
      }
    }
  }

  /** A listing shows what the store's other Services hold. */
  lemma ForeignIsHeldByOthers(entries: map<string, Entry>, listing: seq<Entry>, path: string)
    requires IsListing(SERVICES, entries, listing)
    ensures Foreign(listing, path) == HeldByOthers(entries, path)
  {
    hide NodePortsOf;
    ForeignIs(listing, path);
    forall p | p in HeldByOthers(entries, path) ensures p in Foreign(listing, path) {
      var q :| q in entries && SERVICES.Covers(q) && q != path && p in NodePortsOf(entries[q].value);
      var i :| 0 <= i < |listing| && listing[i].key == q;
      assert listing[i] == entries[q];
    }
  }

  // --- What the loop does ------------------------------------------------------------------------

  /** How one round ends, and whether another follows. */
  datatype RoundEnd = RoundEnd(more: bool, store: Store, entry: Entry)

  /** One round: list, compare, drop and number anew, swap; a lost swap is read again. */
  function Round(s: Store, key: Key, given: Entry, others: Meanwhile): RoundEnd {
    if !IsNodePortType(given.value) || NodePortsOf(given.value) == {} then RoundEnd(false, s, given) else
      var seen := AfterOps(s, others.beforeList);
      if !others.listed then RoundEnd(false, seen, given) else
        var foreign := HeldByOthers(seen.entries, key.AsPath());
        var healed := Healed(given.value, foreign);
        if NodePortsOf(given.value) !! foreign || healed.error.Some? then RoundEnd(false, seen, given)
        else Swap(AfterOps(seen, others.beforeWrite), key, given, healed.body, others.beforeRead)
  }

  function Swap(at: Store, key: Key, given: Entry, body: Value, beforeRead: seq<Op>): RoundEnd {
    match at.Update(key, body, Some(given.modRevision))
    case (next, Ok(updated)) => RoundEnd(false, next, updated)
    case (next, Err(error)) =>
      if error != Conflict then RoundEnd(false, next, given) else
        var read := AfterOps(next, beforeRead);
        match read.Get(key.AsPath())
        case None => RoundEnd(false, read, given)
        case Some(moved) => RoundEnd(true, read, moved)
  }

  /** The store and the entry after as many rounds as `others` has. */
  function HealedFrom(s: Store, key: Key, given: Entry, others: seq<Meanwhile>): (Store, Entry)
    decreases |others|
  {
    if others == [] then (s, given) else
      var end := Round(s, key, given, others[0]);
      if end.more then HealedFrom(end.store, key, end.entry, others[1..]) else (end.store, end.entry)
  }

  /** `heal_nodeport_collision`: at most five rounds, while others write. */
  method Heal(store: EmbeddedStorage, key: Key, given: Entry, others: seq<Meanwhile>) returns (entry: Entry)
    requires |others| == 5 && store.State().Valid()
    modifies store
    ensures store.State().Valid()
    ensures (store.State(), entry) == HealedFrom(old(store.State()), key, given, others)
    ensures Recorded(old(store.State()), key.AsPath(), given) ==>
      && Recorded(store.State(), key.AsPath(), entry)
      && exists exit :: Ends(exit, old(store.State()), key, others, store.State(), entry)
  {
    hide Round, Ends, Recorded;
    if Recorded(store.State(), key.AsPath(), given) {
      ghost var exit := HealEnds(store.State(), key, given, others);
    }
    ghost var start := store.State();
    entry := given;
    for round := 0 to HEAL_MAX_ATTEMPTS
      invariant store.State().Valid()
      invariant HealedFrom(store.State(), key, entry, others[round..]) == HealedFrom(start, key, given, others)
    {
      var more;
      entry, more := HealRound(store, key, entry, others[round]);
      if !more { return; }
    }
  }

  method HealRound(store: EmbeddedStorage, key: Key, given: Entry, others: Meanwhile)
    returns (entry: Entry, more: bool)
    requires store.State().Valid()
    modifies store
    ensures store.State().Valid()
    ensures RoundEnd(more, store.State(), entry) == Round(old(store.State()), key, given, others)
  {
    hide IsNodePortType, NodePortsOf, DefaultedService, Dropped, Foreign, IsListing, Replay, Tombstones, HeldByOthers;
    var path := key.AsPath();
    entry, more := given, false;
    if !IsNodePortType(entry.value) || NodePortsOf(entry.value) == {} { return; }
    Interfere(store, others.beforeList);
    if !others.listed { return; }
    var listing := store.List(SERVICES);
    var foreign := Foreign(listing, path);
    ForeignIsHeldByOthers(store.entries, listing, path);
    if NodePortsOf(entry.value) !! foreign { return; }
    var next := DropFrom(entry.value, foreign);
    var body, used, error := DefaultService(next, foreign);
    assert Healed(entry.value, foreign) == Defaulted(body, used, error);
    if error.Some? { return; }
    Interfere(store, others.beforeWrite);
    var r := store.Update(key, body, Some(entry.modRevision));
    match r {
      case Ok(updated) => entry := updated;
      case Err(Conflict) =>
        Interfere(store, others.beforeRead);
        var found := store.Get(path);
        if found.Some? {
          entry, more := found.value, true;
        }
      case Err(_) =>
    }
  }

  // --- What that achieves --------------------------------------------------------------------------

  /**
   * How the loop ended, by the writes of others that passed: by a swap of
   * `before`, some up to its listing and some more up to its write, or with no
   * write of its own.
   */
  datatype HealExit =
    | Swapped(before: Entry, upToListing: seq<Op>, upToWrite: seq<Op>)
    | NothingWritten(ops: seq<Op>)

  /**
   * What a swap achieved: it replaced exactly the version that was looked at by
   * one that shares no number with what the other Services held when listed.
   */
  ghost predicate Heals(exit: HealExit, s: Store, key: Key, after: Store, entry: Entry)
    requires exit.Swapped?
  {
    var seen := AfterOps(s, exit.upToListing);
    var at := AfterOps(seen, exit.upToWrite);
    var foreign := HeldByOthers(seen.entries, key.AsPath());
    && IsNodePortType(exit.before.value) && !(NodePortsOf(exit.before.value) !! foreign)
    && entry.value == Healed(exit.before.value, foreign).body && NodePortsOf(entry.value) !! foreign
    && at.Get(key.AsPath()) == Some(exit.before)
    && at.Update(key, entry.value, Some(exit.before.modRevision)) == (after, Ok(entry))
  }

  ghost predicate ByOthers(ops: seq<Op>, others: seq<Meanwhile>) {
    forall op :: op in ops ==>
      exists w :: w in others && (op in w.beforeList || op in w.beforeWrite || op in w.beforeRead)
  }

  /** How the loop may have ended, started at `s`: at most one swap, and otherwise the writes of others. */
  ghost predicate Ends(exit: HealExit, s: Store, key: Key, others: seq<Meanwhile>, after: Store, entry: Entry) {
    match exit
    case Swapped(_, upToListing, upToWrite) =>
      Heals(exit, s, key, after, entry) && ByOthers(upToListing, others) && ByOthers(upToWrite, others)
    case NothingWritten(ops) => after == AfterOps(s, ops) && ByOthers(ops, others)
  }

  lemma {:induction false} AfterBoth(s: Store, a: seq<Op>, b: seq<Op>)
    ensures AfterOps(s, a + b) == AfterOps(AfterOps(s, a), b)
  {
    hide Apply;
    if b == [] {
      assert a + b == a;
    } else {
      assert (a + b)[..|a + b| - 1] == a + b[..|b| - 1];
      AfterBoth(s, a, b[..|b| - 1]);
    }
  }

  lemma RoundEnds(s: Store, key: Key, given: Entry, others: Meanwhile) returns (exit: HealExit)
    requires s.Valid() && Recorded(s, key.AsPath(), given)
    ensures
      var end := Round(s, key, given, others);
      && end.store.Valid() && Recorded(end.store, key.AsPath(), end.entry)
      && Ends(exit, s, key, [others], end.store, end.entry) && (end.more ==> exit.NothingWritten?)
  {
    hide IsNodePortType, NodePortsOf, Healed, Replay, Tombstones, HeldByOthers, Recorded, AfterOps;
    var path := key.AsPath();
    var seen := AfterOps(s, others.beforeList);
    RecordStays(s, others.beforeList, path, given);
    var foreign := HeldByOthers(seen.entries, path);
    var healed := Healed(given.value, foreign);
    exit := NothingWritten([]);
    assert AfterOps(s, []) == s by { NoOps(s); }
    if IsNodePortType(given.value) && NodePortsOf(given.value) != {} {
      exit := NothingWritten(others.beforeList);
      if others.listed && !(NodePortsOf(given.value) !! foreign) && healed.error.None? {
        RecordStays(seen, others.beforeWrite, path, given);
        var at := AfterOps(seen, others.beforeWrite);
        HealedIsDisjoint(given.value, foreign);
        SwapEnds(at, key, given, healed.body, others.beforeRead);
        AfterBoth(s, others.beforeList, others.beforeWrite);
        var (next, r) := at.Update(key, healed.body, Some(given.modRevision));
        if r.Ok? {
          exit := Swapped(given, others.beforeList, others.beforeWrite);
        } else if r.error == Conflict {
          AfterBoth(s, others.beforeList + others.beforeWrite, others.beforeRead);
          exit := NothingWritten(others.beforeList + others.beforeWrite + others.beforeRead);
        } else {
          exit := NothingWritten(others.beforeList + others.beforeWrite);
        }
      }
    }
  }

  lemma NoOps(s: Store)
    ensures AfterOps(s, []) == s
  {
  }

  lemma SwapEnds(at: Store, key: Key, given: Entry, body: Value, beforeRead: seq<Op>)
    requires at.Valid() && Recorded(at, key.AsPath(), given)
    ensures
      var end := Swap(at, key, given, body, beforeRead);
      && end.store.Valid() && Recorded(end.store, key.AsPath(), end.entry)
    ensures at.Update(key, body, Some(given.modRevision)).1.Ok? ==> at.Get(key.AsPath()) == Some(given)
  {
    hide Replay, Tombstones, AfterOps;
    var path := key.AsPath();
    ApplyKeepsValid(at, DoUpdate(key, body, Some(given.modRevision)));
    if path in at.entries {
      if at.entries[path].modRevision == given.modRevision {
        SameRevisionSameEntry(at, path, given);
      } else {
        RecordStays(at, beforeRead, path, given);
        var read := AfterOps(at, beforeRead);
        if path in read.entries {
          LiveIsRecorded(read, path);
        }
      }
    }
  }

  /**
   * Whatever others write meanwhile, the loop returns a version that was really
   * written; and either it wrote it itself, by a swap that heals the very
   * version it looked at, or it wrote nothing.
   */
  lemma {:induction false} HealEnds(s: Store, key: Key, given: Entry, others: seq<Meanwhile>) returns (exit: HealExit)
    requires s.Valid() && Recorded(s, key.AsPath(), given)
    ensures
      var (after, entry) := HealedFrom(s, key, given, others);
      && after.Valid() && Recorded(after, key.AsPath(), entry) && Ends(exit, s, key, others, after, entry)
    decreases |others|
  {
    hide Round, Heals, Recorded, AfterOps, Replay, Tombstones;
    if others == [] {
      NoOps(s);
      exit := NothingWritten([]);
    } else {
      var end := Round(s, key, given, others[0]);
      exit := RoundEnds(s, key, given, others[0]);
      if end.more {
        var first := exit.ops;
        exit := HealEnds(end.store, key, end.entry, others[1..]);
        var (after, entry) := HealedFrom(end.store, key, end.entry, others[1..]);
        exit := LaterEnds(exit, s, first, key, others, after, entry);
      }
    }
  }

  /** An end reached from a later start, as an end reached from the first. */
  lemma LaterEnds(exit: HealExit, s: Store, first: seq<Op>, key: Key, others: seq<Meanwhile>, after: Store,
          entry: Entry) returns (whole: HealExit)
    requires others != [] && ByOthers(first, [others[0]])
    requires Ends(exit, AfterOps(s, first), key, others[1..], after, entry)
    ensures Ends(whole, s, key, others, after, entry)
  {
    hide AfterOps, IsNodePortType, NodePortsOf, Healed, HeldByOthers;
    match exit {
      case NothingWritten(ops) =>
        AfterBoth(s, first, ops);
        whole := NothingWritten(first + ops);
      case Swapped(before, upToListing, upToWrite) =>
        AfterBoth(s, first, upToListing);
        whole := Swapped(before, first + upToListing, upToWrite);
    }
  }

  /** With nobody else writing in its first round the loop needs no other. */
  lemma HealAlone(s: Store, key: Key, given: Entry, others: seq<Meanwhile>)
    requires s.Get(key.AsPath()) == Some(given) && others != []
    requires others[0] == Meanwhile([], others[0].listed, [], [])
    ensures
      var foreign := HeldByOthers(s.entries, key.AsPath());
      var healed := Healed(given.value, foreign);
      HealedFrom(s, key, given, others) ==
      if others[0].listed && !(NodePortsOf(given.value) !! foreign) && healed.error.None?
      then (s.Write(Rewritten(s, given, key, healed.body)), Rewritten(s, given, key, healed.body))
      else (s, given)
  {
    hide NodePortsOf, IsNodePortType, Healed, HeldByOthers;
    NoOps(s);
    NotNodePort(given.value);
  }

  /** The next version of an entry. */
  function Rewritten(s: Store, e: Entry, key: Key, body: Value): Entry {
    Entry(key.AsPath(), body, e.createRevision, s.revision + 1, e.version + 1)
  }

  /**
   * Undisturbed, the loop leaves the Service sharing nothing with any other
   * exactly if it shared nothing before or what it can drop passes the
   * defaulting; and it writes only where it shared something.
   */
  lemma UndisturbedHeal(s: Store, key: Key, given: Entry, others: seq<Meanwhile>)
    requires s.Get(key.AsPath()) == Some(given) && others != [] && others[0] == UNDISTURBED
    ensures
      var path := key.AsPath();
      var (after, entry) := HealedFrom(s, key, given, others);
      var foreign := HeldByOthers(s.entries, path);
      && after.Get(path) == Some(entry) && HeldByOthers(after.entries, path) == foreign
      && (NodePortsOf(entry.value) !! foreign <==>
            NodePortsOf(given.value) !! foreign || Healed(given.value, foreign).error.None?)
      && (NodePortsOf(given.value) !! foreign ==> (after, entry) == (s, given))
  {
    hide NodePortsOf, IsNodePortType, Healed, HeldByOthers, HealedFrom;
    var foreign := HeldByOthers(s.entries, key.AsPath());
    HealAlone(s, key, given, others);
    if IsNodePortType(given.value) && Healed(given.value, foreign).error.None? {
      HealedIsDisjoint(given.value, foreign);
    }
    NotNodePort(given.value);
    OthersUntouched(s, key, Healed(given.value, foreign).body, Some(given.modRevision));
  }

  /**
   * A heal that lost its race goes on with what is there by then, in the next
   * round, if there is one: somebody wrote the Service between listing and swap,
   * and it is still there when it is read again.
   */
  lemma HealGoesOn(s: Store, key: Key, given: Entry, others: seq<Meanwhile>)
    requires others != [] && others[0].listed
    requires
      var path := key.AsPath();
      var seen := AfterOps(s, others[0].beforeList);
      var at := AfterOps(seen, others[0].beforeWrite);
      && !(NodePortsOf(given.value) !! HeldByOthers(seen.entries, path))
      && Healed(given.value, HeldByOthers(seen.entries, path)).error.None?
      && path in at.entries && at.entries[path].modRevision != given.modRevision
      && path in AfterOps(at, others[0].beforeRead).entries
    ensures
      var at := AfterOps(AfterOps(s, others[0].beforeList), others[0].beforeWrite);
      var read := AfterOps(at, others[0].beforeRead);
      HealedFrom(s, key, given, others) == HealedFrom(read, key, read.entries[key.AsPath()], others[1..])
  {
    hide NodePortsOf, IsNodePortType, Healed, HeldByOthers, AfterOps;
    NotNodePort(given.value);
  }

  lemma OthersUntouched(s: Store, key: Key, body: Value, ifRevision: Option<nat>)
    ensures
      HeldByOthers(s.Update(key, body, ifRevision).0.entries, key.AsPath()) == HeldByOthers(s.entries, key.AsPath())
  {
    hide NodePortsOf;
    var path, after := key.AsPath(), s.Update(key, body, ifRevision).0.entries;
    assert forall q :: q != path ==> (q in after <==> q in s.entries) && (q in after ==> after[q] == s.entries[q]);
    SameOthers(s.entries, after, path);
  }

  /** A write leaves what the others hold. */
  lemma OthersAsBefore(s: Store, e: Entry)
    ensures HeldByOthers(s.Write(e).entries, e.key) == HeldByOthers(s.entries, e.key)
  {
    hide HeldByOthers;
    SameOthers(s.entries, s.Write(e).entries, e.key);
  }

  lemma SameOthers(a: map<string, Entry>, b: map<string, Entry>, path: string)
    requires forall q :: q != path ==> (q in a <==> q in b) && (q in a ==> a[q] == b[q])
    ensures HeldByOthers(a, path) == HeldByOthers(b, path)
  {
    hide NodePortsOf;
    assert HeldByOthers(a, path) <= HeldByOthers(b, path);
  }

  lemma NotNodePort(v: Value)
    ensures !IsNodePortType(v) ==> NodePortsOf(v) == {}
  {
  }

  // --- Around a create ------------------------------------------------------------------------

  /** What all the Services of a store hold. */
  function HeldIn(entries: map<string, Entry>): set<Pair> {
    set q, p | q in entries && SERVICES.Covers(q) && p in NodePortsOf(entries[q].value) :: p
  }

  function ValuesOf(listing: seq<Entry>): seq<Value> {
    seq(|listing|, i requires 0 <= i < |listing| => listing[i].value)
  }

  lemma UsedIsHeldIn(entries: map<string, Entry>, listing: seq<Entry>)
    requires IsListing(SERVICES, entries, listing)
    ensures UsedNodePorts(ValuesOf(listing)) == HeldIn(entries)
  {
    hide NodePortsOf, UsedNodePorts;
    var values := ValuesOf(listing);
    forall p | p in UsedNodePorts(values) ensures p in HeldIn(entries) {
      UsedIsHeld(values, p);
      var i :| 0 <= i < |values| && p in NodePortsOf(values[i]);
      assert entries[listing[i].key] == listing[i];
    }
    forall p | p in HeldIn(entries) ensures p in UsedNodePorts(values) {
      var q :| q in entries && SERVICES.Covers(q) && p in NodePortsOf(entries[q].value);
      var i :| 0 <= i < |listing| && listing[i].key == q;
      assert listing[i] == entries[q];
      UsedHasAll(values, i);
    }
  }

  /** A Service created with freshly allocated numbers has nothing to heal. */
  lemma CreatedIsCalm(before: Store, key: Key, body: Value, others: seq<Meanwhile>)
    requires others != [] && others[0].beforeList == [] && before.Create(key, body).1.Ok?
    requires NodePortsOf(body) !! HeldIn(before.entries)
    ensures
      var (after, r) := before.Create(key, body);
      HealedFrom(after, key, r.value, others) == (after, r.value)
  {
    hide NodePortsOf, IsNodePortType;
    var (after, r) := before.Create(key, body);
    NoOps(after);
    assert NodePortsOf(r.value.value) !! HeldByOthers(after.entries, key.AsPath());
  }

  /** A round in which nobody else writes. */
  const UNDISTURBED := Meanwhile([], true, [], [])

  /** Rounds in which nobody else writes; `listed` is whether their listings succeed. */
  function Alone(listed: bool): seq<Meanwhile> {
    seq(HEAL_MAX_ATTEMPTS, _ => Meanwhile([], listed, [], []))
  }
}
