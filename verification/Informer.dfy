// The reflector: LIST seeds the cache, the replayed WATCH drives it on. What the
// cache holds at every revision, and exactly when it disagrees with the store.
module Informer {
  import opened Options
  import opened Json
  import opened Text
  import opened Storage
  import opened Objects
  import opened Paths

  // --- Events onto the cache ---------------------------------------------------------

  /** Fill in a missing namespace from the path; a deletion passes as it is. */
  function Normalize(prefix: KeyPrefix, ev: Event): Event {
    match ev
    case Delete(_, _, _) => ev
    case Put(e) =>
      if NamespaceIn(e.value) != "" then ev else
        match NamespaceOfPath(e.key, prefix.group)
        case None => ev
        case Some(ns) => Put(e.(value := SetMeta(e.value, "namespace", ns)))
  }

  /** The value a put leaves in the cache: its revision is added where there is a `metadata` to hold it. */
  function Revised(e: Entry): Value {
    match e.value.Get("metadata")
    case None => e.value
    case Some(meta) =>
      if meta.Object? then SetMeta(e.value, "resourceVersion", Decimal(e.modRevision)) else e.value
  }

  function EventKey(ev: Event): string {
    match ev
    case Put(e) => ObjectKey(e.value)
    case Delete(path, _, prev) => if prev.Some? then ObjectKey(prev.value.value) else KeyFromPath(path)
  }

  function Applied(items: map<string, Value>, ev: Event): map<string, Value> {
    match ev
    case Put(e) => items[ObjectKey(Revised(e)) := Revised(e)]
    case Delete(_, _, _) => items - {EventKey(ev)}
  }

  function AppliedAll(prefix: KeyPrefix, items: map<string, Value>, evs: seq<Event>): map<string, Value> {
    if evs == [] then items else
      Applied(AppliedAll(prefix, items, evs[..|evs| - 1]), Normalize(prefix, evs[|evs| - 1]))
  }

  /** Collect pairs into a map; a later pair wins. */
  function FromPairs(pairs: seq<(string, Value)>): map<string, Value> {
    if pairs == [] then map[] else
      var (k, v) := pairs[|pairs| - 1];
      FromPairs(pairs[..|pairs| - 1])[k := v]
  }

  function Keyed(values: seq<Value>): seq<(string, Value)> {
    seq(|values|, i requires 0 <= i < |values| => (ObjectKey(values[i]), values[i]))
  }

  function Max(a: nat, b: nat): nat {
    if a >= b then a else b
  }

  function RevisionOf(v: Value): nat {
    var r := ResourceVersion(v);
    if r.Some? then r.value else 0
  }

  function MaxRevision(values: seq<Value>): nat {
    if values == [] then 0 else Max(MaxRevision(values[..|values| - 1]), RevisionOf(values[|values| - 1]))
  }

  /** The first revision the watch replays, inclusive. */
  function Start(values: seq<Value>): nat {
    Max(MaxRevision(values), 1)
  }

  /** The replay starts at the newest listed revision, or at 1 when that is 0. */
  ghost predicate StartsAtNewest(values: seq<Value>, start: nat) {
    && start >= 1 && (forall i :: 0 <= i < |values| ==> RevisionOf(values[i]) <= start)
    && (start == 1 || exists i :: 0 <= i < |values| && RevisionOf(values[i]) == start)
  }

  lemma {:induction false} MaxRevisionIs(values: seq<Value>)
    ensures forall i :: 0 <= i < |values| ==> RevisionOf(values[i]) <= MaxRevision(values)
    ensures MaxRevision(values) == 0 || exists i :: 0 <= i < |values| && RevisionOf(values[i]) == MaxRevision(values)
  {
    hide RevisionOf;
    if values != [] {
      var front := values[..|values| - 1];
      MaxRevisionIs(front);
      assert forall i :: 0 <= i < |front| ==> values[i] == front[i];
      if MaxRevision(front) == MaxRevision(values) != 0 {
        var i :| 0 <= i < |front| && RevisionOf(front[i]) == MaxRevision(front);
        assert RevisionOf(values[i]) == MaxRevision(values);
      }
    }
  }

  lemma StartIs(values: seq<Value>)
    ensures StartsAtNewest(values, Start(values))
  {
    hide RevisionOf, MaxRevision;
    MaxRevisionIs(values);
  }

  /** What the handler is told of a listed object. */
  function ListedEvent(prefix: KeyPrefix, pair: (string, Value)): Event {
    Put(Entry(SyntheticPath(prefix, pair.0), pair.1, 0, RevisionOf(pair.1), 0))
  }

  class ObjectStore {
    var items: map<string, Value>

    constructor ()
      ensures items == map[]
    {
      items := map[];
    }

    /** Swap the whole map; `removed` are the keys that are gone, in some order. */
    method ReplaceAll(objs: seq<(string, Value)>) returns (removed: seq<string>)
      modifies this
      ensures items == FromPairs(objs)
      ensures Enumerates(removed, old(items).Keys - items.Keys)
    {
      ghost var was := items;
      var built: map<string, Value> := map[];
      for i := 0 to |objs|
        invariant built == FromPairs(objs[..i])
      {
        assert objs[..i + 1][..i] == objs[..i];
        built := built[objs[i].0 := objs[i].1];
      }
      assert objs[..|objs|] == objs;
      removed := [];
      var left := items.Keys;
      while left != {}
        invariant items == was && left <= items.Keys && Enumerates(removed, items.Keys - left - built.Keys)
        decreases left
      {
        var k :| k in left;
        if k !in built {
          EnumeratesSnoc(removed, items.Keys - left - built.Keys, k);
          assert items.Keys - (left - {k}) - built.Keys == items.Keys - left - built.Keys + {k};
          removed := removed + [k];
        } else {
          assert items.Keys - (left - {k}) - built.Keys == items.Keys - left - built.Keys;
        }
        left := left - {k};
      }
      assert items.Keys - left - built.Keys == was.Keys - built.Keys;
      items := built;
    }

    method ApplyEvent(ev: Event)
      modifies this
      ensures items == Applied(old(items), ev)
    {
      match ev {
        case Put(e) =>
          var value := e.value;
          if value.Object? && "metadata" in value.fields && value.fields["metadata"].Object? {
            value := SetMeta(value, "resourceVersion", Decimal(e.modRevision));
          }
          items := items[ObjectKey(value) := value];
        case Delete(path, _, prev) =>
          var k := if prev.Some? then ObjectKey(prev.value.value) else KeyFromPath(path);
          items := items - {k};
      }
    }

    /** Phase 1: seed from the listed values; `handled` is what the handler is called with, in order. */
    method Seed(prefix: KeyPrefix, values: seq<Value>)
      returns (start: nat, handled: seq<Event>, ghost removed: seq<string>)
      modifies this
      ensures items == FromPairs(Keyed(values)) && start == Start(values) && StartsAtNewest(values, start)
      ensures Enumerates(removed, old(items).Keys - items.Keys)
      ensures handled == ListedEvents(prefix, Keyed(values)) + RemovedEvents(prefix, removed, start)
    {
      hide ObjectKey, RevisionOf, ListedEvent, SyntheticPath, FromPairs, StartsAtNewest;
      var maxRev: nat := 0;
      var objs: seq<(string, Value)> := [];
      for i := 0 to |values|
        invariant maxRev == MaxRevision(values[..i]) && objs == Keyed(values[..i])
      {
        assert values[..i + 1][..i] == values[..i];
        maxRev := Max(maxRev, RevisionOf(values[i]));
        objs := objs + [(ObjectKey(values[i]), values[i])];
      }
      assert values[..|values|] == values;
      StartIs(values);
      var gone := ReplaceAll(objs);
      start := Max(maxRev, 1);
      handled := Announce(prefix, objs, gone, start);
      removed := gone;
    }

    /** Phase 2: the replayed events, one at a time, each applied before the handler sees it. */
    method Drain(prefix: KeyPrefix, evs: seq<Event>) returns (handled: seq<Event>)
      modifies this
      ensures items == AppliedAll(prefix, old(items), evs)
      ensures |handled| == |evs| && forall i :: 0 <= i < |evs| ==> handled[i] == Normalize(prefix, evs[i])
    {
      handled := [];
      for i := 0 to |evs|
        invariant items == AppliedAll(prefix, old(items), evs[..i])
        invariant |handled| == i && forall j :: 0 <= j < i ==> handled[j] == Normalize(prefix, evs[j])
      {
        assert evs[..i + 1][..i] == evs[..i];
        var ev := Normalize(prefix, evs[i]);
        ApplyEvent(ev);
        handled := handled + [ev];
      }
      assert evs[..|evs|] == evs;
    }
  }

  function ListedEvents(prefix: KeyPrefix, pairs: seq<(string, Value)>): seq<Event> {
    seq(|pairs|, i requires 0 <= i < |pairs| => ListedEvent(prefix, pairs[i]))
  }

  /** The keys the handler enqueues. */
  function Handled(evs: seq<Event>): set<string> {
    set i | 0 <= i < |evs| :: EventKey(evs[i])
  }

  function RemovedEvents(prefix: KeyPrefix, removed: seq<string>, rev: nat): seq<Event> {
    seq(|removed|, i requires 0 <= i < |removed| => Delete(SyntheticPath(prefix, removed[i]), rev, None))
  }

  /** `keys` holds every element of `of` once, and nothing else. */
  ghost predicate Enumerates(keys: seq<string>, of: set<string>) {
    && (forall k :: k in keys <==> k in of)
    && forall i, j :: 0 <= i < j < |keys| ==> keys[i] != keys[j]
  }

  lemma EnumeratesSnoc(keys: seq<string>, of: set<string>, k: string)
    requires Enumerates(keys, of) && k !in of
    ensures Enumerates(keys + [k], of + {k})
  {
    forall i | 0 <= i < |keys| ensures keys[i] != k { assert keys[i] in keys; }
  }

  /** The handler calls of one LIST: every listed object, then every key that is gone. */
  method Announce(prefix: KeyPrefix, objs: seq<(string, Value)>, removed: seq<string>, rev: nat)
    returns (handled: seq<Event>)
    ensures handled == ListedEvents(prefix, objs) + RemovedEvents(prefix, removed, rev)
  {
    hide SyntheticPath, ListedEvent;
    handled := [];
    for i := 0 to |objs|
      invariant handled == ListedEvents(prefix, objs[..i])
    {
      handled := handled + [ListedEvent(prefix, objs[i])];
    }
    assert objs[..|objs|] == objs;
    for i := 0 to |removed|
      invariant handled == ListedEvents(prefix, objs) + RemovedEvents(prefix, removed[..i], rev)
    {
      handled := handled + [Delete(SyntheticPath(prefix, removed[i]), rev, None)];
    }
    assert removed[..|removed|] == removed;
  }
}
