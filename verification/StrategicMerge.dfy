// Strategic merge patch: what `strategic_merge` means, and the in-place
// algorithm (path stack, key index, tombstones) proved against that meaning.
module StrategicMerge {
  import opened Options
  import opened Json
  import opened Text

  type Path = seq<string>

  /** `PatchStrategy.merge_keys`: slash-joined list path to merge-key name. */
  type Strategy = map<string, string>

  const NO_STRATEGY: Strategy := map[]

  const KUBERNETES_DEFAULTS: Strategy := map[
    "spec/containers" := "name",
    "spec/initContainers" := "name",
    "spec/ephemeralContainers" := "name",
    "spec/volumes" := "name",
    "spec/containers/ports" := "containerPort",
    "spec/containers/env" := "name",
    "spec/imagePullSecrets" := "name"]

  datatype PatchError = Invalid(message: string)

  function MergeKeyFor(strategy: Strategy, path: Path): Option<string> {
    if Join(path) in strategy then Some(strategy[Join(path)]) else None
  }

  predicate IsDeleteDirective(v: Value) {
    v.Get("$patch") == Some(String("delete"))
  }

  /** The merge-key value of a list element: a string, or an `i64` printed in decimal. */
  function KeyOf(el: Value, mergeKey: string): Option<string> {
    match el.Get(mergeKey)
    case None => None
    case Some(v) =>
      if v.String? then Some(v.s) else
      if v.AsI64().Some? then Some(SignedDecimal(v.AsI64().value)) else None
  }

  // --- Meaning ---------------------------------------------------------------

  /** The document `patch` turns `target` into. */
  function Merge(target: Value, patch: Value, path: Path, strategy: Strategy): Value
    decreases patch, 0
  {
    if !patch.Object? then patch else
    if IsDeleteDirective(patch) then Null else
      var prior := Members(target);
      Object(map k | k in prior.Keys + patch.fields.Keys &&
                     (k in patch.fields ==> MergeMember(Lookup(prior, k), patch.fields[k], path + [k], strategy).Some?)
               :: if k in patch.fields then MergeMember(Lookup(prior, k), patch.fields[k], path + [k], strategy).value
                  else prior[k])
  }

  /** What one patched member becomes; `None` means that it is removed. */
  function MergeMember(prior: Option<Value>, patch: Value, path: Path, strategy: Strategy): Option<Value>
    decreases patch, 1
  {
    if patch.Null? || IsDeleteDirective(patch) then None else
    if prior.Some? && prior.value.Object? && patch.Object? then Some(Merge(prior.value, patch, path, strategy)) else
    if prior.Some? && prior.value.Array? && patch.Array? then
      Some(Array(MergeList(prior.value.items, patch.items, path, strategy)))
    else Some(patch)
  }

  /**
   * A list under a patch list. Without a merge key the patch replaces it. With
   * one: the target's elements in order, each folded with the patch elements
   * of its key, then the patch elements that start a new key or have none.
   */
  function MergeList(target: seq<Value>, patch: seq<Value>, path: Path, strategy: Strategy): seq<Value>
    decreases patch, 3
  {
    match MergeKeyFor(strategy, path)
    case None => patch
    case Some(mk) =>
      Collect(seq(|target|, i requires 0 <= i < |target| => TargetSlot(target, patch, i, mk, path, strategy)))
      + Collect(seq(|patch|, j requires 0 <= j < |patch| => PatchSlot(target, patch, j, mk, path, strategy)))
  }

  /** Target element `i` under the patch; only the last element of a key is patched. */
  function TargetSlot(target: seq<Value>, patch: seq<Value>, i: nat, mk: string, path: Path, strategy: Strategy)
    : Option<Value>
    requires i < |target|
    decreases patch, 2
  {
    if !Owns(target, i, mk) then Some(target[i])
    else Fold(target[i], patch, KeyOf(target[i], mk).value, mk, path, strategy)
  }

  /** Patch element `j` as an element of its own: keyless, or the first of a new key. */
  function PatchSlot(target: seq<Value>, patch: seq<Value>, j: nat, mk: string, path: Path, strategy: Strategy)
    : Option<Value>
    requires j < |patch|
    decreases patch, 2
  {
    if !Appends(target, patch, j, mk) then None else
    match KeyOf(patch[j], mk)
    case None => Some(patch[j])
    case Some(k) => Fold(patch[j], patch[j + 1..], k, mk, path, strategy)
  }

  /** An element under later patch elements of its key: dropped if one of them deletes it. */
  function Fold(v: Value, patch: seq<Value>, k: string, mk: string, path: Path, strategy: Strategy): Option<Value>
    decreases patch, 1
  {
    if Deletes(patch, k, mk) then None else Some(FoldMerge(v, patch, k, mk, path, strategy))
  }

  function FoldMerge(v: Value, patch: seq<Value>, k: string, mk: string, path: Path, strategy: Strategy): Value
    decreases patch, 0
  {
    if patch == [] then v else
      var w := FoldMerge(v, patch[..|patch| - 1], k, mk, path, strategy);
      var last := patch[|patch| - 1];
      if KeyOf(last, mk) == Some(k) && !IsDeleteDirective(last) then Merge(w, last, path, strategy) else w
  }

  predicate HasKey(els: seq<Value>, k: string, mk: string) {
    exists i :: 0 <= i < |els| && KeyOf(els[i], mk) == Some(k)
  }

  predicate Deletes(patch: seq<Value>, k: string, mk: string) {
    exists j :: 0 <= j < |patch| && KeyOf(patch[j], mk) == Some(k) && IsDeleteDirective(patch[j])
  }

  predicate Supplies(patch: seq<Value>, k: string, mk: string) {
    exists j :: 0 <= j < |patch| && KeyOf(patch[j], mk) == Some(k) && !IsDeleteDirective(patch[j])
  }

  /** Element `i` is the last one of its key, the one the index points at. */
  predicate Owns(target: seq<Value>, i: nat, mk: string)
    requires i < |target|
  {
    KeyOf(target[i], mk).Some? && !HasKey(target[i + 1..], KeyOf(target[i], mk).value, mk)
  }

  predicate Appends(target: seq<Value>, patch: seq<Value>, j: nat, mk: string)
    requires j < |patch|
  {
    && !IsDeleteDirective(patch[j])
    && (KeyOf(patch[j], mk).Some? ==>
          var k := KeyOf(patch[j], mk).value;
          !HasKey(target, k, mk) && !Supplies(patch[..j], k, mk))
  }

  /** The present slots, in order. */
  function Collect(slots: seq<Option<Value>>): seq<Value> {
    if slots == [] then [] else
      var front := Collect(slots[..|slots| - 1]);
      var last := slots[|slots| - 1];
      if last.Some? then front + [last.value] else front
  }

  lemma {:induction false} CollectConcat(a: seq<Option<Value>>, b: seq<Option<Value>>)
    ensures Collect(a + b) == Collect(a) + Collect(b)
  {
    if b == [] {
      assert a + b == a;
    } else {
      assert (a + b)[..|a + b| - 1] == a + b[..|b| - 1];
      CollectConcat(a, b[..|b| - 1]);
    }
  }

  predicate Increasing(xs: seq<nat>) {
    forall i, j :: 0 <= i < j < |xs| ==> xs[i] < xs[j]
  }

  function Pick(slots: seq<Option<Value>>, at: seq<nat>): (r: seq<Option<Value>>)
    requires forall i :: 0 <= i < |at| ==> at[i] < |slots|
  {
    seq(|at|, i requires 0 <= i < |at| => slots[at[i]])
  }

  /** Absent slots do not matter: collecting only at the present places gives the same. */
  lemma {:induction false} CollectSparse(slots: seq<Option<Value>>, at: seq<nat>)
    requires Increasing(at)
    requires forall i :: 0 <= i < |at| ==> at[i] < |slots|
    requires forall j :: 0 <= j < |slots| && slots[j].Some? ==> j in at
    ensures Collect(Pick(slots, at)) == Collect(slots)
  {
    if slots == [] {
      assert Pick(slots, at) == [];
    } else {
      var n := |slots| - 1;
      var front := slots[..n];
      if n in at {
        var at' := at[..|at| - 1];
        assert at[|at| - 1] == n by {
          var i :| 0 <= i < |at| && at[i] == n;
          assert i <= |at| - 1 && at[i] <= at[|at| - 1];
        }
        forall j | 0 <= j < |front| && front[j].Some? ensures j in at' {
          assert slots[j].Some?;
          var i :| 0 <= i < |at| && at[i] == j;
          assert at'[i] == j;
        }
        CollectSparse(front, at');
        assert Pick(slots, at)[..|at| - 1] == Pick(front, at');
      } else {
        forall i | 0 <= i < |at| ensures at[i] < |front| { assert at[i] in at; }
        CollectSparse(front, at);
        assert Pick(slots, at) == Pick(front, at);
      }
    }
  }

  // --- The in-place algorithm ------------------------------------------------

  /** `strategic_merge`: never fails, and leaves `Merge(target, patch)` behind. */
  method StrategicMergeInPlace(target: Value, patch: Value, strategy: Strategy)
    returns (target': Value, outcome: Result<(), PatchError>)
    ensures outcome.Ok?
    ensures target' == Merge(target, patch, [], strategy)
  {
    var path;
    target', path, outcome := MergeValueInPlace(target, patch, [], strategy);
  }

  /** `merge_value`: `target` and the path stack are in-out. */
  method MergeValueInPlace(target: Value, patch: Value, path: Path, strategy: Strategy)
    returns (target': Value, path': Path, outcome: Result<(), PatchError>)
    ensures outcome.Ok? && path' == path
    ensures target' == Merge(target, patch, path, strategy)
    decreases patch, 1
  {
    target', path', outcome := target, path, Ok(());
    if !patch.Object? {
      return patch, path, Ok(());
    }
    if IsDeleteDirective(patch) {
      return Null, path, Ok(());
    }
    hide Merge, MergeList, MergedOutside;
    var fields := Members(target);
    var keys := patch.fields.Keys;
    MergedNone(Members(target), patch.fields, path, strategy);
    while keys != {}
      invariant keys <= patch.fields.Keys
      invariant path' == path && outcome.Ok?
      invariant MergedOutside(fields, Members(target), patch.fields, keys, path, strategy)
    {
      var key :| key in keys;
      var pv := patch.fields[key];
      ghost var before := fields;
      MergedNotYet(before, Members(target), patch.fields, keys, key, path, strategy);
      path' := path' + [key];
      if pv.Null? {
        fields := fields - {key};
      } else if IsDeleteDirective(pv) {
        fields := fields - {key};
      } else {
        if key !in fields {
          fields := fields[key := Null];
        }
        var entry := fields[key];
        if entry.Object? && pv.Object? {
          entry, path', outcome := MergeValueInPlace(entry, pv, path', strategy);
          if outcome.Err? { return; }
        } else if entry.Array? && pv.Array? {
          entry, outcome := MergeListInPlace(entry, pv, path', strategy);
          if outcome.Err? { return; }
        } else {
          entry := pv;
        }
        fields := fields[key := entry];
      }
      path' := path'[..|path'| - 1];
      assert path' == path;
      MergedOneMore(before, fields, Members(target), patch.fields, keys, key, path, strategy);
      keys := keys - {key};
    }
    MergedAll(target, patch, fields, path, strategy);
    target' := Object(fields);
  }

  /** `fields` is `prior` with exactly the patch members outside `keys` applied. */
  ghost predicate MergedOutside(fields: map<string, Value>, prior: map<string, Value>, patch: map<string, Value>,
                                keys: set<string>, path: Path, strategy: Strategy)
  {
    forall k :: Lookup(fields, k) == MergedMember(prior, patch, keys, k, path, strategy)
  }

  ghost function MergedMember(prior: map<string, Value>, patch: map<string, Value>, keys: set<string>, k: string,
                              path: Path, strategy: Strategy): Option<Value>
  {
    if k in patch && k !in keys then MergeMember(Lookup(prior, k), patch[k], path + [k], strategy)
    else Lookup(prior, k)
  }

  lemma MergedNone(prior: map<string, Value>, patch: map<string, Value>, path: Path, strategy: Strategy)
    ensures MergedOutside(prior, prior, patch, patch.Keys, path, strategy)
  {
  }

  lemma MergedNotYet(fields: map<string, Value>, prior: map<string, Value>, patch: map<string, Value>,
                     keys: set<string>, key: string, path: Path, strategy: Strategy)
    requires MergedOutside(fields, prior, patch, keys, path, strategy) && key in keys
    ensures Lookup(fields, key) == Lookup(prior, key)
  {
  }

  lemma MergedAll(target: Value, patch: Value, fields: map<string, Value>, path: Path, strategy: Strategy)
    requires patch.Object? && !IsDeleteDirective(patch)
    requires MergedOutside(fields, Members(target), patch.fields, {}, path, strategy)
    ensures Object(fields) == Merge(target, patch, path, strategy)
  {
    hide MergeMember;
    var merged := Merge(target, patch, path, strategy).fields;
    forall k ensures Lookup(fields, k) == Lookup(merged, k) {
      assert Lookup(fields, k) == MergedMember(Members(target), patch.fields, {}, k, path, strategy);
    }
    forall k ensures k in fields <==> k in merged { assert Lookup(fields, k) == Lookup(merged, k); }
    forall k | k in fields ensures fields[k] == merged[k] { assert Lookup(fields, k) == Lookup(merged, k); }
  }

  lemma MergedOneMore(before: map<string, Value>, after: map<string, Value>, prior: map<string, Value>,
                      patch: map<string, Value>, keys: set<string>, key: string, path: Path, strategy: Strategy)
    requires MergedOutside(before, prior, patch, keys, path, strategy)
    requires key in patch && key in keys
    requires Lookup(after, key) == MergeMember(Lookup(prior, key), patch[key], path + [key], strategy)
    requires after - {key} == before - {key}
    ensures MergedOutside(after, prior, patch, keys - {key}, path, strategy)
  {
    hide MergeMember;
    forall k ensures Lookup(after, k) == MergedMember(prior, patch, keys - {key}, k, path, strategy) {
      assert Lookup(before, k) == MergedMember(prior, patch, keys, k, path, strategy);
      if k != key {
        assert k in after <==> k in after - {key};
        assert k in before <==> k in before - {key};
      }
    }
  }

  /** `merge_list`: fails only on a keyed path whose target is no array. */
  method MergeListInPlace(target: Value, patch: Value, path: Path, strategy: Strategy)
    returns (target': Value, outcome: Result<(), PatchError>)
    requires patch.Array?
    ensures outcome.Err? <==> MergeKeyFor(strategy, path).Some? && !target.Array?
    ensures outcome.Err? ==> target' == target
    ensures outcome.Ok? && target.Array? ==> target' == Array(MergeList(target.items, patch.items, path, strategy))
    ensures outcome.Ok? && !target.Array? ==> target' == patch
    decreases patch, 0
  {
    var found := MergeKeyFor(strategy, path);
    if found.None? {
      return patch, Ok(());
    }
    if !target.Array? {
      return target, Err(Invalid("merge-key list target is not an array"));
    }
    var result, deleted := FoldPatch(target.items, patch.items, found.value, path, strategy);
    var survivors := DropTombstones(result, deleted);
    target', outcome := Array(survivors), Ok(());
  }

  /** The loop over the patch elements, on the indexed target: what is left below the tombstones. */
  method FoldPatch(t: seq<Value>, p: seq<Value>, mk: string, path: Path, strategy: Strategy)
    returns (result: seq<Value>, deleted: seq<bool>)
    requires MergeKeyFor(strategy, path) == Some(mk)
    ensures |deleted| == |result| && Collect(Slots(result, deleted)) == MergeList(t, p, path, strategy)
    decreases p, 1
  {
    hide Merge, MergeList, FoldMerge, Folded, KeyOf, IsDeleteDirective, Collect, Slots, MergeKeyFor;
    var existing: map<string, nat>;
    result, existing, deleted := IndexTarget(t, mk);
    ghost var origins: seq<nat> := [];
    ghost var log := seq(|t|, i requires 0 <= i < |t| => Origin(t[i], 0));
    FoldedAtStart(t, p, mk, path, strategy, existing, deleted, log);
    for n := 0 to |p|
      invariant Folded(t, p, n, mk, path, strategy, existing, result, deleted, log, origins)
    {
      existing, result, deleted, log, origins :=
        FoldElement(t, p, n, mk, path, strategy, existing, result, deleted, log, origins);
    }
    FoldedSurvivors(t, p, mk, path, strategy, existing, result, deleted, log, origins);
  }

  /** One patch element: tombstone, merge, or append. */
  method FoldElement(t: seq<Value>, p: seq<Value>, n: nat, mk: string, path: Path, strategy: Strategy,
                     existing: map<string, nat>, result: seq<Value>, deleted: seq<bool>,
                     ghost log: seq<Origin>, ghost origins: seq<nat>)
    returns (existing': map<string, nat>, result': seq<Value>, deleted': seq<bool>,
             ghost log': seq<Origin>, ghost origins': seq<nat>)
    requires n < |p| && Folded(t, p, n, mk, path, strategy, existing, result, deleted, log, origins)
    ensures Folded(t, p, n + 1, mk, path, strategy, existing', result', deleted', log', origins')
    decreases p, 0
  {
    hide Merge, FoldMerge, Folded, KeyOf, IsDeleteDirective, BasesOf;
    existing', result', deleted', log', origins' := existing, result, deleted, log, origins;
    var pel := p[n];
    var pkey := KeyOf(pel, mk);
    var matched := if pkey.Some? && pkey.value in existing then Some(existing[pkey.value]) else None;
    if IsDeleteDirective(pel) {
      if matched.Some? {
        FoldedHit(t, p, n, mk, path, strategy, existing, result, deleted, log, origins, matched.value);
        deleted' := deleted[matched.value := true];
      } else {
        FoldedMiss(t, p, n, mk, path, strategy, existing, result, deleted, log, origins);
      }
    } else if matched.Some? {
      FoldedHit(t, p, n, mk, path, strategy, existing, result, deleted, log, origins, matched.value);
      var subPath: Path := [];
      subPath := subPath + path;
      assert subPath == path;
      var el, sub, merged := MergeValueInPlace(result[matched.value], pel, subPath, strategy);
      result' := result[matched.value := el];
    } else {
      FoldedAppend(t, p, n, mk, path, strategy, existing, result, deleted, log, origins);
      existing' := if pkey.Some? then existing[pkey.value := |result|] else existing;
      deleted' := deleted + [false];
      result' := result + [pel];
      origins', log' := origins + [n], log + [Origin(pel, n + 1)];
    }
  }

  /** The first loop: carry the target over and index it by key. */
  method IndexTarget(t: seq<Value>, mk: string)
    returns (result: seq<Value>, existing: map<string, nat>, deleted: seq<bool>)
    ensures result == t && Indexes(existing, t, mk)
    ensures |deleted| == |t| && forall j :: 0 <= j < |t| ==> !deleted[j]
  {
    result, existing, deleted := [], map[], [];
    for i := 0 to |t|
      invariant result == t[..i] && |deleted| == i
      invariant forall j :: 0 <= j < i ==> !deleted[j]
      invariant Indexes(existing, t[..i], mk)
    {
      var k := KeyOf(t[i], mk);
      IndexesSnoc(existing, t[..i], t[i], mk);
      assert t[..i + 1] == t[..i] + [t[i]];
      if k.Some? {
        existing := existing[k.value := |result|];
      }
      deleted := deleted + [false];
      result := result + [t[i]];
    }
    assert t[..|t|] == t;
  }

  /** The last loop: the elements without a tombstone, in order. */
  method DropTombstones(result: seq<Value>, deleted: seq<bool>) returns (survivors: seq<Value>)
    requires |deleted| == |result|
    ensures survivors == Collect(Slots(result, deleted))
  {
    survivors := [];
    ghost var slots := Slots(result, deleted);
    for i := 0 to |result|
      invariant survivors == Collect(slots[..i])
    {
      assert slots[..i + 1][..i] == slots[..i];
      if !deleted[i] {
        survivors := survivors + [result[i]];
      }
    }
    assert slots[..|result|] == slots;
  }

  /** Where a slot came from: its first value, and the first patch position that can touch it. */
  datatype Origin = Origin(base: Value, since: nat)

  /** `existing` sends every key of `els` to the last element that has it. */
  ghost predicate Indexes(existing: map<string, nat>, els: seq<Value>, mk: string) {
    && (forall k :: k in existing ==> IsLast(els, existing[k], k, mk))
    && (forall i :: 0 <= i < |els| && KeyOf(els[i], mk).Some? ==> KeyOf(els[i], mk).value in existing)
  }

  ghost predicate IsLast(els: seq<Value>, i: nat, k: string, mk: string) {
    && i < |els| && KeyOf(els[i], mk) == Some(k)
    && (forall j :: i < j < |els| ==> KeyOf(els[j], mk) != Some(k))
  }

  lemma IndexesSnoc(existing: map<string, nat>, els: seq<Value>, el: Value, mk: string)
    requires Indexes(existing, els, mk)
    ensures var k := KeyOf(el, mk);
      Indexes(if k.Some? then existing[k.value := |els|] else existing, els + [el], mk)
  {
  }

  ghost function BasesOf(log: seq<Origin>): (bases: seq<Value>)
    ensures |bases| == |log|
  {
    seq(|log|, i requires 0 <= i < |log| => log[i].base)
  }

  ghost function Slots(result: seq<Value>, deleted: seq<bool>): seq<Option<Value>>
    requires |deleted| == |result|
  {
    seq(|result|, i requires 0 <= i < |result| => if deleted[i] then None else Some(result[i]))
  }

  /** The loop's state after the first `n` patch elements. */
  ghost predicate Folded(t: seq<Value>, p: seq<Value>, n: nat, mk: string, path: Path, strategy: Strategy,
                         existing: map<string, nat>, result: seq<Value>, deleted: seq<bool>,
                         log: seq<Origin>, origins: seq<nat>)
  {
    && n <= |p|
    && |result| == |deleted| == |log|
    && Indexes(existing, BasesOf(log), mk)
    && Known(t, p, n, mk, existing)
    && Logged(t, p, n, mk, log, origins)
    && forall i :: 0 <= i < |log| ==> SlotFolded(p, n, mk, path, strategy, existing, i, log[i], result[i], deleted[i])
  }

  ghost predicate Known(t: seq<Value>, p: seq<Value>, n: nat, mk: string, existing: map<string, nat>)
    requires n <= |p|
  {
    forall k :: k in existing <==> HasKey(t, k, mk) || Supplies(p[..n], k, mk)
  }

  /** The slots are the target's elements and the patch elements that append. */
  ghost predicate Logged(t: seq<Value>, p: seq<Value>, n: nat, mk: string, log: seq<Origin>, origins: seq<nat>)
    requires n <= |p|
  {
    && Increasing(origins)
    && (forall i :: 0 <= i < |origins| ==> origins[i] < n)
    && (forall j :: 0 <= j < n ==> (j in origins <==> Appends(t, p, j, mk)))
    && |log| == |t| + |origins|
    && (forall i :: 0 <= i < |t| ==> log[i] == Origin(t[i], 0))
    && (forall i :: 0 <= i < |origins| ==> log[|t| + i] == Origin(p[origins[i]], origins[i] + 1))
  }

  ghost predicate SlotFolded(p: seq<Value>, n: nat, mk: string, path: Path, strategy: Strategy,
                             existing: map<string, nat>, i: nat, origin: Origin, el: Value, gone: bool)
    requires n <= |p|
  {
    && origin.since <= n
    && var key := KeyOf(origin.base, mk);
       if key.Some? && Maps(existing, key.value, i) then
         && el == FoldMerge(origin.base, p[origin.since..n], key.value, mk, path, strategy)
         && gone == Deletes(p[origin.since..n], key.value, mk)
       else el == origin.base && !gone
  }

  ghost predicate Maps(existing: map<string, nat>, k: string, i: nat) {
    k in existing && existing[k] == i
  }

  lemma FoldedAtStart(t: seq<Value>, p: seq<Value>, mk: string, path: Path, strategy: Strategy,
                      existing: map<string, nat>, deleted: seq<bool>, log: seq<Origin>)
    requires Indexes(existing, t, mk) && |deleted| == |t|
    requires forall j :: 0 <= j < |t| ==> !deleted[j]
    requires log == seq(|t|, i requires 0 <= i < |t| => Origin(t[i], 0))
    ensures Folded(t, p, 0, mk, path, strategy, existing, t, deleted, log, [])
  {
  }

  /** One more patch element, seen from a slot of key `k` that started at `s`. */
  lemma FoldSnoc(v: Value, p: seq<Value>, s: nat, n: nat, k: string, mk: string, path: Path, strategy: Strategy)
    requires s <= n < |p|
    ensures Deletes(p[s..n + 1], k, mk)
        <==> Deletes(p[s..n], k, mk) || (KeyOf(p[n], mk) == Some(k) && IsDeleteDirective(p[n]))
    ensures FoldMerge(v, p[s..n + 1], k, mk, path, strategy)
         == var w := FoldMerge(v, p[s..n], k, mk, path, strategy);
            if KeyOf(p[n], mk) == Some(k) && !IsDeleteDirective(p[n]) then Merge(w, p[n], path, strategy) else w
  {
    hide Merge, KeyOf, IsDeleteDirective;
    var longer := p[s..n + 1];
    assert longer[..|longer| - 1] == p[s..n] && longer[|longer| - 1] == p[n];
    assert forall j :: 0 <= j < |p[s..n]| ==> longer[j] == p[s..n][j];
  }

  lemma KnownSnoc(t: seq<Value>, p: seq<Value>, n: nat, mk: string, existing: map<string, nat>, at: nat)
    requires n < |p| && Known(t, p, n, mk, existing)
    ensures var k := KeyOf(p[n], mk);
      Known(t, p, n + 1, mk, if k.Some? && !IsDeleteDirective(p[n]) then existing[k.value := at] else existing)
  {
    hide KeyOf, IsDeleteDirective;
    var key := KeyOf(p[n], mk);
    assert p[..n + 1] == p[..n] + [p[n]];
    forall k ensures Supplies(p[..n + 1], k, mk)
      <==> Supplies(p[..n], k, mk) || (key == Some(k) && !IsDeleteDirective(p[n]))
    {
      assert forall j :: 0 <= j < n ==> p[..n + 1][j] == p[..n][j];
    }
  }

  /** The step on one slot: tombstone, merge, or leave alone. */
  lemma SlotStep(p: seq<Value>, n: nat, mk: string, path: Path, strategy: Strategy,
                 existing: map<string, nat>, existing': map<string, nat>, i: nat, origin: Origin, el: Value, gone: bool)
    requires n < |p| && SlotFolded(p, n, mk, path, strategy, existing, i, origin, el, gone)
    requires KeyOf(origin.base, mk).Some? ==>
      var k := KeyOf(origin.base, mk).value; Maps(existing, k, i) <==> Maps(existing', k, i)
    ensures
      var key := KeyOf(p[n], mk);
      var hit := key.Some? && key == KeyOf(origin.base, mk) && Maps(existing, key.value, i);
      SlotFolded(p, n + 1, mk, path, strategy, existing', i, origin,
                 if hit && !IsDeleteDirective(p[n]) then Merge(el, p[n], path, strategy) else el,
                 gone || (hit && IsDeleteDirective(p[n])))
  {
    hide Merge, FoldMerge, KeyOf, IsDeleteDirective;
    var key := KeyOf(origin.base, mk);
    if key.Some? {
      FoldSnoc(origin.base, p, origin.since, n, key.value, mk, path, strategy);
    }
  }

  /** The loop body on a patch element whose key is indexed: tombstone or merge that slot. */
  lemma FoldedHit(t: seq<Value>, p: seq<Value>, n: nat, mk: string, path: Path, strategy: Strategy,
                  existing: map<string, nat>, result: seq<Value>, deleted: seq<bool>,
                  log: seq<Origin>, origins: seq<nat>, at: nat)
    requires n < |p| && Folded(t, p, n, mk, path, strategy, existing, result, deleted, log, origins)
    requires KeyOf(p[n], mk).Some? && Maps(existing, KeyOf(p[n], mk).value, at)
    ensures at < |result| == |deleted|
    ensures IsDeleteDirective(p[n]) ==>
      Folded(t, p, n + 1, mk, path, strategy, existing, result, deleted[at := true], log, origins)
    ensures !IsDeleteDirective(p[n]) ==>
      Folded(t, p, n + 1, mk, path, strategy, existing, result[at := Merge(result[at], p[n], path, strategy)],
             deleted, log, origins)
  {
    hide Merge, FoldMerge, KeyOf, IsDeleteDirective;
    assert IsLast(BasesOf(log), at, KeyOf(p[n], mk).value, mk);
    KnownKept(t, p, n, mk, existing);
    LoggedKept(t, p, n, mk, existing, log, origins);
    forall i | 0 <= i < |log| {
      SlotStep(p, n, mk, path, strategy, existing, existing, i, log[i], result[i], deleted[i]);
    }
  }

  /** The loop body on a delete directive for an unknown key: nothing happens. */
  lemma FoldedMiss(t: seq<Value>, p: seq<Value>, n: nat, mk: string, path: Path, strategy: Strategy,
                   existing: map<string, nat>, result: seq<Value>, deleted: seq<bool>,
                   log: seq<Origin>, origins: seq<nat>)
    requires n < |p| && Folded(t, p, n, mk, path, strategy, existing, result, deleted, log, origins)
    requires IsDeleteDirective(p[n]) && (KeyOf(p[n], mk).Some? ==> KeyOf(p[n], mk).value !in existing)
    ensures Folded(t, p, n + 1, mk, path, strategy, existing, result, deleted, log, origins)
  {
    hide Merge, FoldMerge, KeyOf, IsDeleteDirective;
    KnownSnoc(t, p, n, mk, existing, 0);
    LoggedKept(t, p, n, mk, existing, log, origins);
    forall i | 0 <= i < |log| {
      SlotStep(p, n, mk, path, strategy, existing, existing, i, log[i], result[i], deleted[i]);
    }
  }

  lemma KnownKept(t: seq<Value>, p: seq<Value>, n: nat, mk: string, existing: map<string, nat>)
    requires n < |p| && Known(t, p, n, mk, existing)
    requires KeyOf(p[n], mk).Some? && KeyOf(p[n], mk).value in existing
    ensures Known(t, p, n + 1, mk, existing)
  {
    hide KeyOf, IsDeleteDirective;
    var k := KeyOf(p[n], mk).value;
    KnownSnoc(t, p, n, mk, existing, existing[k]);
    assert existing[k := existing[k]] == existing;
  }

  lemma LoggedKept(t: seq<Value>, p: seq<Value>, n: nat, mk: string, existing: map<string, nat>,
                   log: seq<Origin>, origins: seq<nat>)
    requires n < |p| && Logged(t, p, n, mk, log, origins) && Known(t, p, n, mk, existing)
    requires IsDeleteDirective(p[n]) || (KeyOf(p[n], mk).Some? && KeyOf(p[n], mk).value in existing)
    ensures Logged(t, p, n + 1, mk, log, origins)
  {
  }

  lemma FoldedAppend(t: seq<Value>, p: seq<Value>, n: nat, mk: string, path: Path, strategy: Strategy,
                     existing: map<string, nat>, result: seq<Value>, deleted: seq<bool>,
                     log: seq<Origin>, origins: seq<nat>)
    requires n < |p| && Folded(t, p, n, mk, path, strategy, existing, result, deleted, log, origins)
    requires !IsDeleteDirective(p[n]) && (KeyOf(p[n], mk).Some? ==> KeyOf(p[n], mk).value !in existing)
    ensures
      var key := KeyOf(p[n], mk);
      Folded(t, p, n + 1, mk, path, strategy, if key.Some? then existing[key.value := |result|] else existing,
             result + [p[n]], deleted + [false], log + [Origin(p[n], n + 1)], origins + [n])
  {
    hide Merge, KeyOf, IsDeleteDirective;
    var key := KeyOf(p[n], mk);
    var existing' := if key.Some? then existing[key.value := |result|] else existing;
    var log' := log + [Origin(p[n], n + 1)];
    var result', deleted' := result + [p[n]], deleted + [false];
    assert BasesOf(log') == BasesOf(log) + [p[n]];
    IndexesSnoc(existing, BasesOf(log), p[n], mk);
    KnownSnoc(t, p, n, mk, existing, |result|);
    assert Appends(t, p, n, mk);
    assert Logged(t, p, n + 1, mk, log', origins + [n]) by {
      forall j | 0 <= j < n + 1 ensures j in origins + [n] <==> Appends(t, p, j, mk) {
        assert j in origins + [n] <==> j in origins || j == n;
      }
    }
    forall i | 0 <= i < |log'|
      ensures SlotFolded(p, n + 1, mk, path, strategy, existing', i, log'[i], result'[i], deleted'[i])
    {
      if i < |log| {
        SlotStep(p, n, mk, path, strategy, existing, existing', i, log[i], result[i], deleted[i]);
      } else {
        assert p[n + 1..n + 1] == [];
      }
    }
  }

  /** What survives the tombstones is `MergeList`. */
  lemma FoldedSurvivors(t: seq<Value>, p: seq<Value>, mk: string, path: Path, strategy: Strategy,
                        existing: map<string, nat>, result: seq<Value>, deleted: seq<bool>,
                        log: seq<Origin>, origins: seq<nat>)
    requires Folded(t, p, |p|, mk, path, strategy, existing, result, deleted, log, origins)
    requires MergeKeyFor(strategy, path) == Some(mk)
    ensures |deleted| == |result| && Collect(Slots(result, deleted)) == MergeList(t, p, path, strategy)
  {
    hide Merge, FoldMerge, KeyOf, IsDeleteDirective;
    var slots := Slots(result, deleted);
    var ofTarget := seq(|t|, i requires 0 <= i < |t| => TargetSlot(t, p, i, mk, path, strategy));
    var ofPatch := seq(|p|, j requires 0 <= j < |p| => PatchSlot(t, p, j, mk, path, strategy));
    forall i | 0 <= i < |t| ensures slots[i] == ofTarget[i] {
      assert SlotFolded(p, |p|, mk, path, strategy, existing, i, log[i], result[i], deleted[i]);
      assert p[0..|p|] == p;
      TargetIndexed(t, p, mk, existing, log, origins, i);
      TargetSlotIs(t, p, i, mk, path, strategy);
    }
    forall i | 0 <= i < |origins| ensures slots[|t| + i] == ofPatch[origins[i]] {
      var j := origins[i];
      assert j in origins && Appends(t, p, j, mk);
      assert SlotFolded(p, |p|, mk, path, strategy, existing, |t| + i, log[|t| + i], result[|t| + i], deleted[|t| + i]);
      assert p[j + 1..|p|] == p[j + 1..];
      AppendedIndexed(t, p, mk, existing, log, origins, i);
      PatchSlotIs(t, p, j, mk, path, strategy);
    }
    forall j | 0 <= j < |p| && ofPatch[j].Some? ensures j in origins {
      assert Appends(t, p, j, mk);
    }
    assert slots == ofTarget + Pick(ofPatch, origins);
    CollectConcat(ofTarget, Pick(ofPatch, origins));
    CollectSparse(ofPatch, origins);
  }

  lemma TargetSlotIs(t: seq<Value>, p: seq<Value>, i: nat, mk: string, path: Path, strategy: Strategy)
    requires i < |t|
    ensures !Owns(t, i, mk) ==> TargetSlot(t, p, i, mk, path, strategy) == Some(t[i])
    ensures Owns(t, i, mk) ==>
      var k := KeyOf(t[i], mk).value;
      TargetSlot(t, p, i, mk, path, strategy)
        == if Deletes(p, k, mk) then None else Some(FoldMerge(t[i], p, k, mk, path, strategy))
  {
  }

  lemma PatchSlotIs(t: seq<Value>, p: seq<Value>, j: nat, mk: string, path: Path, strategy: Strategy)
    requires j < |p| && Appends(t, p, j, mk)
    ensures KeyOf(p[j], mk).None? ==> PatchSlot(t, p, j, mk, path, strategy) == Some(p[j])
    ensures KeyOf(p[j], mk).Some? ==>
      var k := KeyOf(p[j], mk).value;
      PatchSlot(t, p, j, mk, path, strategy)
        == if Deletes(p[j + 1..], k, mk) then None else Some(FoldMerge(p[j], p[j + 1..], k, mk, path, strategy))
  {
  }

  /** No appended element shares its key with another slot. */
  lemma AppendedAlone(t: seq<Value>, p: seq<Value>, mk: string, log: seq<Origin>, origins: seq<nat>, i: nat, at: nat)
    requires Logged(t, p, |p|, mk, log, origins)
    requires i < at && |t| <= at < |log| && KeyOf(log[at].base, mk).Some?
    ensures KeyOf(log[i].base, mk) != KeyOf(log[at].base, mk)
  {
    hide KeyOf, IsDeleteDirective;
    var j := origins[at - |t|];
    assert j in origins && Appends(t, p, j, mk) && log[at].base == p[j];
    if |t| <= i {
      var j' := origins[i - |t|];
      assert j' in origins && j' < j && Appends(t, p, j', mk) && p[..j][j'] == p[j'];
    }
  }

  /** The index points at a target element iff it owns its key. */
  lemma TargetIndexed(t: seq<Value>, p: seq<Value>, mk: string, existing: map<string, nat>,
                      log: seq<Origin>, origins: seq<nat>, i: nat)
    requires Logged(t, p, |p|, mk, log, origins) && Indexes(existing, BasesOf(log), mk) && i < |t|
    ensures Owns(t, i, mk) <==> KeyOf(t[i], mk).Some? && Maps(existing, KeyOf(t[i], mk).value, i)
  {
    hide KeyOf, IsDeleteDirective;
    var bases := BasesOf(log);
    assert bases[i] == t[i];
    if KeyOf(t[i], mk).Some? {
      var k := KeyOf(t[i], mk).value;
      var at := existing[k];
      assert IsLast(bases, at, k, mk) && i <= at;
      if |t| <= at {
        AppendedAlone(t, p, mk, log, origins, i, at);
      }
      if i < at {
        assert t[i + 1..][at - i - 1] == t[at] == bases[at];
      } else {
        var rest := t[i + 1..];
        forall j | 0 <= j < |rest| ensures KeyOf(rest[j], mk) != Some(k) {
          assert rest[j] == t[i + 1 + j] == bases[i + 1 + j];
        }
      }
    }
  }

  lemma AppendedIndexed(t: seq<Value>, p: seq<Value>, mk: string, existing: map<string, nat>,
                        log: seq<Origin>, origins: seq<nat>, i: nat)
    requires Logged(t, p, |p|, mk, log, origins) && Indexes(existing, BasesOf(log), mk) && i < |origins|
    ensures KeyOf(p[origins[i]], mk).Some? ==> Maps(existing, KeyOf(p[origins[i]], mk).value, |t| + i)
  {
    hide KeyOf, IsDeleteDirective;
    var bases := BasesOf(log);
    assert bases[|t| + i] == p[origins[i]];
    if KeyOf(p[origins[i]], mk).Some? {
      var k := KeyOf(p[origins[i]], mk).value;
      var at := existing[k];
      assert IsLast(bases, at, k, mk) && |t| + i <= at;
      if |t| + i < at {
        AppendedAlone(t, p, mk, log, origins, |t| + i, at);
      }
    }
  }
}
