// What the merge codecs promise: RFC 7386 agreement, idempotence, untouched
// members, and the order and keys of merged lists.
module MergeLaws {
  import opened Options
  import opened Json
  import opened StrategicMerge

  // --- RFC 7386 ---------------------------------------------------------------

  /** MergePatch of section 2 of RFC 7386; an undefined target is `None`. */
  function MergePatch(target: Option<Value>, patch: Value): Value
    decreases patch
  {
    if !patch.Object? then patch else
      var prior := if target.Some? then Members(target.value) else map[];
      Object(map k | k in prior.Keys + patch.fields.Keys && (k in patch.fields ==> !patch.fields[k].Null?)
               :: if k in patch.fields then MergePatch(Lookup(prior, k), patch.fields[k]) else prior[k])
  }

  /**
   * When the merge-patch codec keeps to the standard: no delete directive, and
   * a patch object set where the target has no object carries no null.
   */
  predicate Conforms(target: Value, patch: Value)
    decreases patch, 0
  {
    patch.Object? ==>
      && !IsDeleteDirective(patch)
      && forall k :: k in patch.fields ==> ConformsMember(Lookup(Members(target), k), patch.fields[k])
  }

  predicate ConformsMember(prior: Option<Value>, patch: Value)
    decreases patch, 1
  {
    patch.Object? ==>
      && !IsDeleteDirective(patch)
      && if prior.Some? && prior.value.Object? then Conforms(prior.value, patch) else NullFree(patch)
  }

  /** No null member in `v` or in an object member of it, at any depth. */
  predicate NullFree(v: Value) {
    v.Object? ==> forall k :: k in v.fields ==> !v.fields[k].Null? && NullFree(v.fields[k])
  }

  /** With no strategy the codec is RFC 7386 exactly on the conforming patches. */
  lemma {:induction false} AgreesWithRfc7386(target: Value, patch: Value, path: Path)
    ensures Merge(target, patch, path, NO_STRATEGY) == MergePatch(Some(target), patch) <==> Conforms(target, patch)
    decreases patch, 0
  {
    if patch.Object? && !IsDeleteDirective(patch) {
      var prior := Members(target);
      var ours, rfc := Merge(target, patch, path, NO_STRATEGY).fields, MergePatch(Some(target), patch).fields;
      forall k | k in patch.fields
        ensures Lookup(ours, k) == Lookup(rfc, k) <==> ConformsMember(Lookup(prior, k), patch.fields[k])
      {
        MemberAgrees(Lookup(prior, k), patch.fields[k], path + [k]);
      }
      forall k | k !in patch.fields ensures Lookup(ours, k) == Lookup(rfc, k) {}
      SameMembers(ours, rfc);
    }
  }

  lemma {:induction false} MemberAgrees(prior: Option<Value>, patch: Value, path: Path)
    ensures
      var rfc := if patch.Null? then None else Some(MergePatch(prior, patch));
      MergeMember(prior, patch, path, NO_STRATEGY) == rfc <==> ConformsMember(prior, patch)
    decreases patch, 1
  {
    if patch.Object? && !IsDeleteDirective(patch) {
      if prior.Some? && prior.value.Object? {
        AgreesWithRfc7386(prior.value, patch, path);
      } else {
        FreshObject(prior, patch);
      }
    }
  }

  /** The standard copies an object verbatim only when there is no null to drop. */
  lemma {:induction false} FreshObject(prior: Option<Value>, patch: Value)
    requires prior.Some? ==> !prior.value.Object?
    ensures MergePatch(prior, patch) == patch <==> NullFree(patch)
    decreases patch
  {
    if patch.Object? {
      var rfc := MergePatch(prior, patch).fields;
      forall k | k in patch.fields
        ensures Lookup(rfc, k) == Some(patch.fields[k]) <==> !patch.fields[k].Null? && NullFree(patch.fields[k])
      {
        FreshObject(None, patch.fields[k]);
      }
      forall k ensures k in rfc ==> k in patch.fields {}
      SameMembers(rfc, patch.fields);
    }
  }

  lemma SameMembers(a: map<string, Value>, b: map<string, Value>)
    ensures a == b <==> forall k :: Lookup(a, k) == Lookup(b, k)
  {
    if forall k :: Lookup(a, k) == Lookup(b, k) {
      forall k ensures k in a <==> k in b { assert Lookup(a, k) == Lookup(b, k); }
      forall k | k in a ensures a[k] == b[k] { assert Lookup(a, k) == Lookup(b, k); }
    }
  }

  /** `{"a": {"b": null}}` on `{}`: the standard drops the null, the codec stores it. */
  lemma NestedNullIsStored()
    ensures
      var patch := Object(map["a" := Object(map["b" := Null])]);
      && Merge(Object(map[]), patch, [], NO_STRATEGY) == patch
      && MergePatch(Some(Object(map[])), patch) == Object(map["a" := Object(map[])])
  {
    var inner := Object(map["b" := Null]);
    var patch := Object(map["a" := inner]);
    assert "b" in inner.fields && inner.fields["b"].Null?;
    assert MergePatch(None, inner) == Object(map[]);
    assert Merge(Object(map[]), patch, [], NO_STRATEGY).fields == patch.fields;
  }

  // --- Idempotence ------------------------------------------------------------

  predicate AllKeyed(els: seq<Value>, mk: string) {
    forall i :: 0 <= i < |els| ==> KeyOf(els[i], mk).Some?
  }

  predicate DistinctKeys(els: seq<Value>, mk: string) {
    forall i, j :: 0 <= i < j < |els| && KeyOf(els[i], mk).Some? ==> KeyOf(els[i], mk) != KeyOf(els[j], mk)
  }

  /** A document that merging into itself does not change. */
  predicate Settled(v: Value, path: Path, strategy: Strategy)
    decreases v
  {
    && (v.Object? ==>
          && !IsDeleteDirective(v)
          && forall k :: k in v.fields ==> !v.fields[k].Null? && Settled(v.fields[k], path + [k], strategy))
    && (v.Array? && MergeKeyFor(strategy, path).Some? ==>
          var mk := MergeKeyFor(strategy, path).value;
          && AllKeyed(v.items, mk) && DistinctKeys(v.items, mk)
          && forall i :: 0 <= i < |v.items| ==> Settled(v.items[i], path, strategy))
  }

  /** What a patch may hold, position by position, for its merge to settle in one application. */
  predicate Settles(target: Value, patch: Value, path: Path, strategy: Strategy)
    decreases patch, 0
  {
    patch.Object? && !IsDeleteDirective(patch) ==>
      forall k :: k in patch.fields ==>
        SettlesMember(Lookup(Members(target), k), patch.fields[k], path + [k], strategy)
  }

  predicate SettlesMember(prior: Option<Value>, patch: Value, path: Path, strategy: Strategy)
    decreases patch, 1
  {
    patch.Null? || IsDeleteDirective(patch) ||
    if prior.Some? && prior.value.Object? && patch.Object? then Settles(prior.value, patch, path, strategy)
    else if prior.Some? && prior.value.Array? && patch.Array? then
      SettlesList(prior.value.items, patch.items, path, strategy)
    else Settled(patch, path, strategy)
  }

  /** Keys present and distinct; a new element is settled, a known one settles on its match. */
  predicate SettlesList(target: seq<Value>, patch: seq<Value>, path: Path, strategy: Strategy)
    decreases patch, 0
  {
    MergeKeyFor(strategy, path).Some? ==>
      var mk := MergeKeyFor(strategy, path).value;
      && AllKeyed(patch, mk) && DistinctKeys(patch, mk) && DistinctKeys(target, mk)
      && forall j :: 0 <= j < |patch| && !IsDeleteDirective(patch[j]) ==>
           && (!HasKey(target, KeyOf(patch[j], mk).value, mk) ==> Settled(patch[j], path, strategy))
           && forall i :: 0 <= i < |target| && KeyOf(target[i], mk) == KeyOf(patch[j], mk) ==>
                Settles(target[i], patch[j], path, strategy)
  }

  /** Applying a settling patch twice is applying it once, under every strategy. */
  lemma {:induction false} Idempotent(target: Value, patch: Value, path: Path, strategy: Strategy)
    requires Settles(target, patch, path, strategy)
    ensures Merge(Merge(target, patch, path, strategy), patch, path, strategy) == Merge(target, patch, path, strategy)
    decreases patch, 0
  {
    hide SettlesMember, MergeMember;
    if patch.Object? && !IsDeleteDirective(patch) {
      var once := Merge(target, patch, path, strategy);
      forall k | k in patch.fields
        ensures MergeMember(Lookup(once.fields, k), patch.fields[k], path + [k], strategy) == Lookup(once.fields, k)
      {
        MemberIdempotent(Lookup(Members(target), k), patch.fields[k], path + [k], strategy);
      }
      assert Merge(once, patch, path, strategy).fields == once.fields;
    }
  }

  lemma {:induction false} MemberIdempotent(prior: Option<Value>, patch: Value, path: Path, strategy: Strategy)
    requires SettlesMember(prior, patch, path, strategy)
    ensures
      var once := MergeMember(prior, patch, path, strategy);
      MergeMember(once, patch, path, strategy) == once
    decreases patch, 1
  {
    if patch.Null? || IsDeleteDirective(patch) {
    } else if prior.Some? && prior.value.Object? && patch.Object? {
      Idempotent(prior.value, patch, path, strategy);
    } else if prior.Some? && prior.value.Array? && patch.Array? {
      ListIdempotent(prior.value.items, patch.items, path, strategy);
    } else if patch.Object? {
      SettledIsFixed(patch, path, strategy);
    } else if patch.Array? {
      SettledListIsFixed(patch.items, path, strategy);
    }
  }

  lemma {:induction false} ListIdempotent(t: seq<Value>, p: seq<Value>, path: Path, strategy: Strategy)
    requires SettlesList(t, p, path, strategy)
    ensures MergeList(MergeList(t, p, path, strategy), p, path, strategy) == MergeList(t, p, path, strategy)
    decreases p, 0
  {
    if MergeKeyFor(strategy, path).Some? {
      hide Merge, MergeList, KeyOf, IsDeleteDirective;
      var mk := MergeKeyFor(strategy, path).value;
      var r := MergeList(t, p, path, strategy);
      MergedKeysDistinct(t, p, mk, path, strategy);
      forall j | 0 <= j < |p|
        ensures IsDeleteDirective(p[j]) <==> !HasKey(r, KeyOf(p[j], mk).value, mk)
      {
        KeyedPresence(t, p, j, mk, path, strategy);
      }
      forall i, j | 0 <= i < |r| && 0 <= j < |p| && KeyOf(r[i], mk) == KeyOf(p[j], mk)
        ensures Merge(r[i], p[j], path, strategy) == r[i]
      {
        assert HasKey(r, KeyOf(p[j], mk).value, mk);
        var at := MergedElement(t, p, i, j, mk, path, strategy);
        if at < |t| {
          Idempotent(t[at], p[j], path, strategy);
        } else {
          SettledIsFixed(p[j], path, strategy);
        }
      }
      FixedList(r, p, path, strategy, mk);
    }
  }

  lemma {:induction false} SettledIsFixed(v: Value, path: Path, strategy: Strategy)
    requires Settled(v, path, strategy)
    ensures Merge(v, v, path, strategy) == v
    decreases v, 1
  {
    if v.Object? {
      forall k | k in v.fields
        ensures MergeMember(Some(v.fields[k]), v.fields[k], path + [k], strategy) == Some(v.fields[k])
      {
        var x := v.fields[k];
        if x.Object? {
          SettledIsFixed(x, path + [k], strategy);
        } else if x.Array? {
          SettledListIsFixed(x.items, path + [k], strategy);
        }
      }
      assert Merge(v, v, path, strategy).fields == v.fields;
    }
  }

  lemma {:induction false} SettledListIsFixed(els: seq<Value>, path: Path, strategy: Strategy)
    requires Settled(Array(els), path, strategy)
    ensures MergeList(els, els, path, strategy) == els
    decreases els, 0
  {
    if MergeKeyFor(strategy, path).Some? {
      var mk := MergeKeyFor(strategy, path).value;
      forall i | 0 <= i < |els| ensures Merge(els[i], els[i], path, strategy) == els[i] {
        SettledIsFixed(els[i], path, strategy);
      }
      forall i, j | 0 <= i < |els| && 0 <= j < |els| && KeyOf(els[i], mk) == KeyOf(els[j], mk) ensures i == j {}
      FixedList(els, els, path, strategy, mk);
    }
  }

  /** A list every patch element of which is already merged in is a fixed point. */
  lemma {:induction false} FixedList(els: seq<Value>, patch: seq<Value>, path: Path, strategy: Strategy, mk: string)
    requires MergeKeyFor(strategy, path) == Some(mk)
    requires AllKeyed(patch, mk) && DistinctKeys(els, mk)
    requires forall j :: 0 <= j < |patch| ==>
      (IsDeleteDirective(patch[j]) <==> !HasKey(els, KeyOf(patch[j], mk).value, mk))
    requires forall i, j :: 0 <= i < |els| && 0 <= j < |patch| && KeyOf(els[i], mk) == KeyOf(patch[j], mk) ==>
      Merge(els[i], patch[j], path, strategy) == els[i]
    ensures MergeList(els, patch, path, strategy) == els
  {
    var ofTarget := seq(|els|, i requires 0 <= i < |els| => TargetSlot(els, patch, i, mk, path, strategy));
    var ofPatch := seq(|patch|, j requires 0 <= j < |patch| => PatchSlot(els, patch, j, mk, path, strategy));
    forall i | 0 <= i < |els| ensures ofTarget[i] == Some(els[i]) {
      TargetSlotIs(els, patch, i, mk, path, strategy);
      if KeyOf(els[i], mk).Some? {
        var k := KeyOf(els[i], mk).value;
        assert HasKey(els, k, mk);
        assert !Deletes(patch, k, mk);
        FixedFold(els[i], patch, k, mk, path, strategy);
      }
    }
    forall j | 0 <= j < |patch| ensures ofPatch[j].None? {
      assert !Appends(els, patch, j, mk);
    }
    CollectAll(els, ofTarget);
    CollectNone(ofPatch);
  }

  lemma {:induction false} FixedFold(v: Value, patch: seq<Value>, k: string, mk: string, path: Path, strategy: Strategy)
    requires forall j :: 0 <= j < |patch| && KeyOf(patch[j], mk) == Some(k) ==> Merge(v, patch[j], path, strategy) == v
    ensures FoldMerge(v, patch, k, mk, path, strategy) == v
  {
    if patch != [] {
      FixedFold(v, patch[..|patch| - 1], k, mk, path, strategy);
    }
  }

  lemma {:induction false} CollectAll(els: seq<Value>, slots: seq<Option<Value>>)
    requires |slots| == |els| && forall i :: 0 <= i < |els| ==> slots[i] == Some(els[i])
    ensures Collect(slots) == els
  {
    if els != [] {
      CollectAll(els[..|els| - 1], slots[..|els| - 1]);
    }
  }

  lemma {:induction false} CollectNone(slots: seq<Option<Value>>)
    requires forall i :: 0 <= i < |slots| ==> slots[i].None?
    ensures Collect(slots) == []
  {
    if slots != [] {
      CollectNone(slots[..|slots| - 1]);
    }
  }

  // --- Where settling is also necessary -----------------------------------------

  /** A new part whose keyed lists, where merging it into itself visits them, have present and distinct keys. */
  predicate SelfKeyed(v: Value, path: Path, strategy: Strategy)
    decreases v
  {
    && (v.Object? && !IsDeleteDirective(v) ==>
          forall k :: k in v.fields ==> SelfKeyed(v.fields[k], path + [k], strategy))
    && (v.Array? && MergeKeyFor(strategy, path).Some? ==>
          var mk := MergeKeyFor(strategy, path).value;
          && AllKeyed(v.items, mk) && DistinctKeys(v.items, mk)
          && forall i :: 0 <= i < |v.items| ==> SelfKeyed(v.items[i], path, strategy))
  }

  /** Every keyed list the merge visits has merge keys that are present in the patch and distinct on both sides. */
  predicate WellKeyed(target: Value, patch: Value, path: Path, strategy: Strategy)
    decreases patch, 0
  {
    patch.Object? && !IsDeleteDirective(patch) ==>
      forall k :: k in patch.fields ==>
        WellKeyedMember(Lookup(Members(target), k), patch.fields[k], path + [k], strategy)
  }

  predicate WellKeyedMember(prior: Option<Value>, patch: Value, path: Path, strategy: Strategy)
    decreases patch, 1
  {
    if prior.Some? && prior.value.Object? && patch.Object? then WellKeyed(prior.value, patch, path, strategy)
    else if prior.Some? && prior.value.Array? && patch.Array? then
      WellKeyedList(prior.value.items, patch.items, path, strategy)
    else SelfKeyed(patch, path, strategy)
  }

  predicate WellKeyedList(target: seq<Value>, patch: seq<Value>, path: Path, strategy: Strategy)
    decreases patch, 0
  {
    MergeKeyFor(strategy, path).Some? ==>
      var mk := MergeKeyFor(strategy, path).value;
      && AllKeyed(patch, mk) && DistinctKeys(patch, mk) && DistinctKeys(target, mk)
      && forall j :: 0 <= j < |patch| ==>
           && (!HasKey(target, KeyOf(patch[j], mk).value, mk) ==> SelfKeyed(patch[j], path, strategy))
           && forall i :: 0 <= i < |target| && KeyOf(target[i], mk) == KeyOf(patch[j], mk) ==>
                WellKeyed(target[i], patch[j], path, strategy)
  }

  /**
   * Where merge keys are present and distinct the condition is exact, under
   * every strategy: only settling patches are idempotent.
   */
  lemma {:induction false} IdempotentExactly(target: Value, patch: Value, path: Path, strategy: Strategy)
    requires WellKeyed(target, patch, path, strategy)
    ensures
      var once := Merge(target, patch, path, strategy);
      Merge(once, patch, path, strategy) == once <==> Settles(target, patch, path, strategy)
    decreases patch, 0
  {
    hide WellKeyedMember, SettlesMember, MergeMember;
    if patch.Object? && !IsDeleteDirective(patch) {
      var once := Merge(target, patch, path, strategy);
      var twice := Merge(once, patch, path, strategy);
      forall k | k in patch.fields
        ensures Lookup(twice.fields, k) == Lookup(once.fields, k)
          <==> SettlesMember(Lookup(Members(target), k), patch.fields[k], path + [k], strategy)
      {
        MemberExactly(Lookup(Members(target), k), patch.fields[k], path + [k], strategy);
      }
      forall k | k !in patch.fields ensures Lookup(twice.fields, k) == Lookup(once.fields, k) {}
      SameMembers(twice.fields, once.fields);
    }
  }

  lemma {:induction false} MemberExactly(prior: Option<Value>, patch: Value, path: Path, strategy: Strategy)
    requires WellKeyedMember(prior, patch, path, strategy)
    ensures
      var once := MergeMember(prior, patch, path, strategy);
      MergeMember(once, patch, path, strategy) == once <==> SettlesMember(prior, patch, path, strategy)
    decreases patch, 1
  {
    hide Merge, MergeList, WellKeyed, WellKeyedList, Settles, SettlesList, SelfKeyed;
    if patch.Null? || IsDeleteDirective(patch) {
    } else if prior.Some? && prior.value.Object? && patch.Object? {
      MergedIsObject(prior.value, patch, path, strategy);
      IdempotentExactly(prior.value, patch, path, strategy);
    } else if prior.Some? && prior.value.Array? && patch.Array? {
      ListExactly(prior.value.items, patch.items, path, strategy);
    } else if patch.Object? {
      SelfMergeIsSettled(patch, path, strategy);
    } else if patch.Array? {
      SelfListIsSettled(patch.items, path, strategy);
    }
  }

  lemma MergedIsObject(target: Value, patch: Value, path: Path, strategy: Strategy)
    requires patch.Object? && !IsDeleteDirective(patch)
    ensures Merge(target, patch, path, strategy).Object?
  {
  }

  lemma {:induction false} ListExactly(t: seq<Value>, p: seq<Value>, path: Path, strategy: Strategy)
    requires WellKeyedList(t, p, path, strategy)
    ensures
      var once := MergeList(t, p, path, strategy);
      MergeList(once, p, path, strategy) == once <==> SettlesList(t, p, path, strategy)
    decreases p, 0
  {
    if MergeKeyFor(strategy, path).Some? {
      hide Merge, MergeList, KeyOf, IsDeleteDirective, WellKeyed, SelfKeyed, Settles, Settled;
      var mk := MergeKeyFor(strategy, path).value;
      var r := MergeList(t, p, path, strategy);
      if SettlesList(t, p, path, strategy) {
        ListIdempotent(t, p, path, strategy);
      } else if MergeList(r, p, path, strategy) == r {
        MergedKeysDistinct(t, p, mk, path, strategy);
        forall j | 0 <= j < |p| && !IsDeleteDirective(p[j])
          ensures !HasKey(t, KeyOf(p[j], mk).value, mk) ==> Settled(p[j], path, strategy)
          ensures forall i :: 0 <= i < |t| && KeyOf(t[i], mk) == KeyOf(p[j], mk) ==> Settles(t[i], p[j], path, strategy)
        {
          KeyedPresence(t, p, j, mk, path, strategy);
          var a :| 0 <= a < |r| && KeyOf(r[a], mk) == Some(KeyOf(p[j], mk).value);
          FixedElement(r, p, a, j, mk, path, strategy);
          var at := MergedElement(t, p, a, j, mk, path, strategy);
          if at < |t| {
            assert forall i :: 0 <= i < |t| && KeyOf(t[i], mk) == KeyOf(p[j], mk) ==> i == at;
            IdempotentExactly(t[at], p[j], path, strategy);
          } else {
            KeyedIsObject(p[j], mk);
            SelfMergeIsSettled(p[j], path, strategy);
          }
        }
        assert false;
      }
    } else {
      assert MergeList(t, p, path, strategy) == p;
    }
  }

  lemma KeyedIsObject(v: Value, mk: string)
    requires KeyOf(v, mk).Some?
    ensures v.Object?
  {
  }

  /** In a list that merging leaves alone, each match has its patch element merged in already. */
  lemma FixedElement(els: seq<Value>, p: seq<Value>, a: nat, j: nat, mk: string, path: Path, strategy: Strategy)
    requires MergeKeyFor(strategy, path) == Some(mk) && AllKeyed(p, mk) && DistinctKeys(p, mk) && DistinctKeys(els, mk)
    requires MergeList(els, p, path, strategy) == els
    requires a < |els| && j < |p| && KeyOf(els[a], mk) == KeyOf(p[j], mk) && !IsDeleteDirective(p[j])
    ensures Merge(els[a], p[j], path, strategy) == els[a]
  {
    hide Merge, MergeList, KeyOf, IsDeleteDirective;
    var at := MergedElement(els, p, a, j, mk, path, strategy);
    assert HasKey(els, KeyOf(p[j], mk).value, mk);
    assert at == a;
  }

  lemma {:induction false} SelfMergeIsSettled(v: Value, path: Path, strategy: Strategy)
    requires v.Object? && !IsDeleteDirective(v) && SelfKeyed(v, path, strategy)
    ensures Merge(v, v, path, strategy) == v <==> Settled(v, path, strategy)
    decreases v, 1
  {
    var twice := Merge(v, v, path, strategy);
    forall k | k in v.fields
      ensures Lookup(twice.fields, k) == Some(v.fields[k])
        <==> !v.fields[k].Null? && Settled(v.fields[k], path + [k], strategy)
    {
      var x := v.fields[k];
      assert Lookup(twice.fields, k) == MergeMember(Some(x), x, path + [k], strategy);
      if x.Object? && !IsDeleteDirective(x) {
        SelfMergeIsSettled(x, path + [k], strategy);
      } else if x.Array? {
        SelfListIsSettled(x.items, path + [k], strategy);
      }
    }
    SameMembers(twice.fields, v.fields);
  }

  lemma {:induction false} SelfListIsSettled(els: seq<Value>, path: Path, strategy: Strategy)
    requires SelfKeyed(Array(els), path, strategy)
    ensures MergeList(els, els, path, strategy) == els <==> Settled(Array(els), path, strategy)
    decreases els, 0
  {
    if Settled(Array(els), path, strategy) {
      SettledListIsFixed(els, path, strategy);
    } else if MergeList(els, els, path, strategy) == els {
      hide Merge, MergeList, KeyOf, IsDeleteDirective;
      var mk := MergeKeyFor(strategy, path).value;
      forall i | 0 <= i < |els| ensures Settled(els[i], path, strategy) {
        assert HasKey(els, KeyOf(els[i], mk).value, mk);
        KeyedPresence(els, els, i, mk, path, strategy);
        FixedElement(els, els, i, i, mk, path, strategy);
        KeyedIsObject(els[i], mk);
        SelfMergeIsSettled(els[i], path, strategy);
      }
      assert false;
    }
  }

  /** With no strategy there is no keyed list, so the condition is exact for every patch. */
  lemma {:induction false} NoStrategyIdempotence(target: Value, patch: Value, path: Path)
    ensures
      var once := Merge(target, patch, path, NO_STRATEGY);
      Merge(once, patch, path, NO_STRATEGY) == once <==> Settles(target, patch, path, NO_STRATEGY)
  {
    NoStrategyIsWellKeyed(target, patch, path);
    IdempotentExactly(target, patch, path, NO_STRATEGY);
  }

  lemma {:induction false} NoStrategyIsWellKeyed(target: Value, patch: Value, path: Path)
    ensures WellKeyed(target, patch, path, NO_STRATEGY)
    decreases patch, 0
  {
    if patch.Object? {
      forall k | k in patch.fields
        ensures WellKeyedMember(Lookup(Members(target), k), patch.fields[k], path + [k], NO_STRATEGY)
      {
        var prior := Lookup(Members(target), k);
        NoStrategyIsSelfKeyed(patch.fields[k], path + [k]);
        if prior.Some? {
          NoStrategyIsWellKeyed(prior.value, patch.fields[k], path + [k]);
        }
      }
    }
  }

  lemma {:induction false} NoStrategyIsSelfKeyed(v: Value, path: Path)
    ensures SelfKeyed(v, path, NO_STRATEGY)
    decreases v
  {
    if v.Object? {
      forall k | k in v.fields ensures SelfKeyed(v.fields[k], path + [k], NO_STRATEGY) {
        NoStrategyIsSelfKeyed(v.fields[k], path + [k]);
      }
    }
  }

  // --- Order and keys of merged lists -------------------------------------------

  /** The places of the present slots. */
  function Sources(slots: seq<Option<Value>>): (at: seq<nat>)
    ensures |at| == |Collect(slots)|
    ensures Increasing(at)
    ensures forall i :: 0 <= i < |at| ==> at[i] < |slots| && slots[at[i]] == Some(Collect(slots)[i])
    ensures forall j :: 0 <= j < |slots| && slots[j].Some? ==> j in at
  {
    if slots == [] then [] else
      var front := Sources(slots[..|slots| - 1]);
      if slots[|slots| - 1].Some? then front + [|slots| - 1] else front
  }

  /** The slots of a keyed merge: one per target element, then one per patch element. */
  function AllSlots(t: seq<Value>, p: seq<Value>, mk: string, path: Path, strategy: Strategy): seq<Option<Value>> {
    seq(|t|, i requires 0 <= i < |t| => TargetSlot(t, p, i, mk, path, strategy))
    + seq(|p|, j requires 0 <= j < |p| => PatchSlot(t, p, j, mk, path, strategy))
  }

  lemma {:induction false} FoldKeepsKey(v: Value, patch: seq<Value>, k: string, mk: string, path: Path,
          strategy: Strategy)
    requires KeyOf(v, mk) == Some(k)
    ensures KeyOf(FoldMerge(v, patch, k, mk, path, strategy), mk) == Some(k)
  {
    if patch != [] {
      var last := patch[|patch| - 1];
      FoldKeepsKey(v, patch[..|patch| - 1], k, mk, path, strategy);
      if KeyOf(last, mk) == Some(k) && !IsDeleteDirective(last) {
        MergeKeepsKey(FoldMerge(v, patch[..|patch| - 1], k, mk, path, strategy), last, k, mk, path, strategy);
      }
    }
  }

  lemma MergeKeepsKey(v: Value, patch: Value, k: string, mk: string, path: Path, strategy: Strategy)
    requires KeyOf(patch, mk) == Some(k) && !IsDeleteDirective(patch)
    ensures KeyOf(Merge(v, patch, path, strategy), mk) == Some(k)
  {
  }

  lemma MergeListIsCollected(t: seq<Value>, p: seq<Value>, mk: string, path: Path, strategy: Strategy)
    requires MergeKeyFor(strategy, path) == Some(mk)
    ensures Collect(AllSlots(t, p, mk, path, strategy)) == MergeList(t, p, path, strategy)
  {
    CollectConcat(seq(|t|, i requires 0 <= i < |t| => TargetSlot(t, p, i, mk, path, strategy)),
                  seq(|p|, j requires 0 <= j < |p| => PatchSlot(t, p, j, mk, path, strategy)));
  }

  /** What one slot holds when it is present. */
  lemma SlotIs(t: seq<Value>, p: seq<Value>, at: nat, mk: string, path: Path, strategy: Strategy)
    requires at < |t| + |p| && AllSlots(t, p, mk, path, strategy)[at].Some?
    ensures
      var el := AllSlots(t, p, mk, path, strategy)[at].value;
      && KeyOf(el, mk) == KeyOf((t + p)[at], mk)
      && (at >= |t| ==> Appends(t, p, at - |t|, mk))
      && (at < |t| && Owns(t, at, mk) ==>
            var k := KeyOf(t[at], mk).value;
            !Deletes(p, k, mk) && el == FoldMerge(t[at], p, k, mk, path, strategy))
      && (at < |t| && !Owns(t, at, mk) ==> el == t[at])
      && (at >= |t| ==>
            var j := at - |t|;
            el == if KeyOf(p[j], mk).None? then p[j]
                  else FoldMerge(p[j], p[j + 1..], KeyOf(p[j], mk).value, mk, path, strategy))
  {
    hide Merge, FoldMerge, KeyOf, IsDeleteDirective;
    if at < |t| {
      TargetSlotIs(t, p, at, mk, path, strategy);
      if Owns(t, at, mk) {
        FoldKeepsKey(t[at], p, KeyOf(t[at], mk).value, mk, path, strategy);
      }
    } else {
      var j := at - |t|;
      assert Appends(t, p, j, mk);
      PatchSlotIs(t, p, j, mk, path, strategy);
      if KeyOf(p[j], mk).Some? {
        FoldKeepsKey(p[j], p[j + 1..], KeyOf(p[j], mk).value, mk, path, strategy);
      }
    }
  }

  /**
   * Where every element of a merged list comes from: survivors keep the order
   * of the target and come first, new ones follow in the order of the patch,
   * every element keeps its key, and a target element whose key the patch does
   * not have is there unchanged.
   */
  lemma MergedListOrder(t: seq<Value>, p: seq<Value>, mk: string, path: Path, strategy: Strategy)
    requires MergeKeyFor(strategy, path) == Some(mk)
    ensures
      var r := MergeList(t, p, path, strategy);
      var from := Sources(AllSlots(t, p, mk, path, strategy));
      && |from| == |r| && Increasing(from)
      && (forall i :: 0 <= i < |r| ==>
            && from[i] < |t| + |p| && KeyOf(r[i], mk) == KeyOf((t + p)[from[i]], mk)
            && (from[i] >= |t| ==> Appends(t, p, from[i] - |t|, mk)))
      && (forall i :: 0 <= i < |t| && (KeyOf(t[i], mk).Some? ==> !HasKey(p, KeyOf(t[i], mk).value, mk)) ==>
            i in from && t[i] in r)
  {
    hide Merge, MergeList, FoldMerge, TargetSlot, PatchSlot, AllSlots, Sources, Collect, Appends, HasKey, KeyOf,
      IsDeleteDirective;
    var r := MergeList(t, p, path, strategy);
    var slots := AllSlots(t, p, mk, path, strategy);
    var from := Sources(slots);
    MergeListIsCollected(t, p, mk, path, strategy);
    SlotCount(t, p, mk, path, strategy);
    assert Increasing(from);
    forall i | 0 <= i < |r|
      ensures from[i] < |t| + |p| && KeyOf(r[i], mk) == KeyOf((t + p)[from[i]], mk)
      ensures from[i] >= |t| ==> Appends(t, p, from[i] - |t|, mk)
    {
      SlotIs(t, p, from[i], mk, path, strategy);
    }
    forall i | 0 <= i < |t| && (KeyOf(t[i], mk).Some? ==> !HasKey(p, KeyOf(t[i], mk).value, mk))
      ensures i in from && t[i] in r
    {
      UnpatchedSlot(t, p, i, mk, path, strategy);
      var at :| 0 <= at < |from| && from[at] == i;
      assert r[at] == t[i];
    }
  }

  lemma SlotCount(t: seq<Value>, p: seq<Value>, mk: string, path: Path, strategy: Strategy)
    ensures |AllSlots(t, p, mk, path, strategy)| == |t| + |p|
  {
  }

  lemma UnpatchedSlot(t: seq<Value>, p: seq<Value>, i: nat, mk: string, path: Path, strategy: Strategy)
    requires i < |t| && (KeyOf(t[i], mk).Some? ==> !HasKey(p, KeyOf(t[i], mk).value, mk))
    ensures |AllSlots(t, p, mk, path, strategy)| == |t| + |p| && AllSlots(t, p, mk, path, strategy)[i] == Some(t[i])
  {
    hide Merge, FoldMerge, KeyOf, IsDeleteDirective;
    TargetSlotIs(t, p, i, mk, path, strategy);
    if Owns(t, i, mk) {
      var k := KeyOf(t[i], mk).value;
      FoldUntouched(t[i], p, k, mk, path, strategy);
      assert !Deletes(p, k, mk);
    }
  }

  lemma {:induction false} FoldUntouched(v: Value, patch: seq<Value>, k: string, mk: string, path: Path,
          strategy: Strategy)
    requires !HasKey(patch, k, mk)
    ensures FoldMerge(v, patch, k, mk, path, strategy) == v
  {
    FixedFold(v, patch, k, mk, path, strategy);
  }

  /** A merge-key list with distinct keys keeps distinct keys. */
  lemma MergedKeysDistinct(t: seq<Value>, p: seq<Value>, mk: string, path: Path, strategy: Strategy)
    requires MergeKeyFor(strategy, path) == Some(mk) && DistinctKeys(t, mk)
    ensures DistinctKeys(MergeList(t, p, path, strategy), mk)
  {
    hide Merge, MergeList, FoldMerge, TargetSlot, PatchSlot, AllSlots, Sources, Collect, Appends, HasKey, KeyOf,
      IsDeleteDirective;
    var r := MergeList(t, p, path, strategy);
    var from := Sources(AllSlots(t, p, mk, path, strategy));
    MergedListOrder(t, p, mk, path, strategy);
    forall i, j | 0 <= i < j < |r| && KeyOf(r[i], mk).Some? ensures KeyOf(r[i], mk) != KeyOf(r[j], mk) {
      assert from[i] < from[j];
      KeptApart(t, p, from[i], from[j], mk);
    }
  }

  /** Two sources of a merged list never share a key. */
  lemma KeptApart(t: seq<Value>, p: seq<Value>, a: nat, b: nat, mk: string)
    requires DistinctKeys(t, mk) && a < b < |t| + |p|
    requires a >= |t| ==> Appends(t, p, a - |t|, mk)
    requires b >= |t| ==> Appends(t, p, b - |t|, mk)
    ensures KeyOf((t + p)[a], mk).Some? ==> KeyOf((t + p)[a], mk) != KeyOf((t + p)[b], mk)
  {
  }

  /** With present, distinct keys a patch element is in the result unless it is a delete. */
  lemma KeyedPresence(t: seq<Value>, p: seq<Value>, j: nat, mk: string, path: Path, strategy: Strategy)
    requires MergeKeyFor(strategy, path) == Some(mk)
    requires AllKeyed(p, mk) && DistinctKeys(p, mk) && DistinctKeys(t, mk) && j < |p|
    ensures IsDeleteDirective(p[j]) <==> !HasKey(MergeList(t, p, path, strategy), KeyOf(p[j], mk).value, mk)
  {
    hide Merge, MergeList, FoldMerge, KeyOf, IsDeleteDirective;
    var k := KeyOf(p[j], mk).value;
    var r := MergeList(t, p, path, strategy);
    var slots := AllSlots(t, p, mk, path, strategy);
    var from := Sources(slots);
    MergeListIsCollected(t, p, mk, path, strategy);
    OnlyOne(p, j, k, mk);
    if HasKey(r, k, mk) {
      var i :| 0 <= i < |r| && KeyOf(r[i], mk) == Some(k);
      SlotIs(t, p, from[i], mk, path, strategy);
      if from[i] < |t| {
        DistinctOwns(t, from[i], mk);
      } else {
        assert from[i] - |t| == j;
      }
      assert !IsDeleteDirective(p[j]);
    } else if !IsDeleteDirective(p[j]) {
      var at := if HasKey(t, k, mk) then var i :| 0 <= i < |t| && KeyOf(t[i], mk) == Some(k); i else |t| + j;
      if at < |t| {
        DistinctOwns(t, at, mk);
        TargetSlotIs(t, p, at, mk, path, strategy);
      } else {
        PatchSlotIs(t, p, j, mk, path, strategy);
      }
      assert slots[at].Some? && at in from;
      var i :| 0 <= i < |from| && from[i] == at;
      SlotIs(t, p, at, mk, path, strategy);
    }
  }

  lemma OnlyOne(p: seq<Value>, j: nat, k: string, mk: string)
    requires DistinctKeys(p, mk) && j < |p| && KeyOf(p[j], mk) == Some(k)
    ensures forall i :: 0 <= i < |p| && KeyOf(p[i], mk) == Some(k) ==> i == j
    ensures Deletes(p, k, mk) <==> IsDeleteDirective(p[j])
    ensures !Supplies(p[..j], k, mk) && !HasKey(p[j + 1..], k, mk) && !Deletes(p[j + 1..], k, mk)
  {
  }

  lemma DistinctOwns(t: seq<Value>, i: nat, mk: string)
    requires DistinctKeys(t, mk) && i < |t| && KeyOf(t[i], mk).Some?
    ensures Owns(t, i, mk)
  {
  }

  /** The result element of a patched key: the match with that one patch element merged in, or the new element. */
  lemma MergedElement(t: seq<Value>, p: seq<Value>, i: nat, j: nat, mk: string, path: Path, strategy: Strategy)
    returns (at: nat)
    requires MergeKeyFor(strategy, path) == Some(mk)
    requires AllKeyed(p, mk) && DistinctKeys(p, mk) && DistinctKeys(t, mk)
    requires i < |MergeList(t, p, path, strategy)| && j < |p| && !IsDeleteDirective(p[j])
    requires KeyOf(MergeList(t, p, path, strategy)[i], mk) == KeyOf(p[j], mk)
    ensures
      var el := MergeList(t, p, path, strategy)[i];
      if at < |t| then KeyOf(t[at], mk) == KeyOf(p[j], mk) && el == Merge(t[at], p[j], path, strategy)
      else !HasKey(t, KeyOf(p[j], mk).value, mk) && el == p[j]
  {
    hide Merge, MergeList, FoldMerge, KeyOf, IsDeleteDirective;
    var k := KeyOf(p[j], mk).value;
    at := Sources(AllSlots(t, p, mk, path, strategy))[i] by { MergeListIsCollected(t, p, mk, path, strategy); }
    MergeListIsCollected(t, p, mk, path, strategy);
    SlotIs(t, p, at, mk, path, strategy);
    OnlyOne(p, j, k, mk);
    if at < |t| {
      DistinctOwns(t, at, mk);
      FoldOne(t[at], p, j, k, mk, path, strategy);
    } else {
      assert at == |t| + j;
      FoldUntouched(p[j], p[j + 1..], k, mk, path, strategy);
    }
  }

  lemma {:induction false} FoldOne(v: Value, p: seq<Value>, j: nat, k: string, mk: string, path: Path,
          strategy: Strategy)
    requires j < |p| && KeyOf(p[j], mk) == Some(k) && !IsDeleteDirective(p[j])
    requires forall i :: 0 <= i < |p| && KeyOf(p[i], mk) == Some(k) ==> i == j
    ensures FoldMerge(v, p, k, mk, path, strategy) == Merge(v, p[j], path, strategy)
  {
    var front := p[..|p| - 1];
    if j == |p| - 1 {
      FoldUntouched(v, front, k, mk, path, strategy);
    } else {
      FoldOne(v, front, j, k, mk, path, strategy);
    }
  }

  // --- What a patch does not mention ---------------------------------------------

  /** The patch has something to say about the member at `q`, or about what holds it. */
  predicate Mentions(patch: Value, q: Path)
    decreases |q|
  {
    || q == [] || !patch.Object? || IsDeleteDirective(patch)
    || (q[0] in patch.fields && Mentions(patch.fields[q[0]], q[1..]))
  }

  /** A member the patch does not mention is what it was, at every depth. */
  lemma {:induction false} UnmentionedIsKept(target: Value, patch: Value, path: Path, strategy: Strategy, q: Path)
    requires !Mentions(patch, q)
    ensures Merge(target, patch, path, strategy).Pointer(q) == target.Pointer(q)
    decreases |q|
  {
    var prior := Lookup(Members(target), q[0]);
    var after := Merge(target, patch, path, strategy);
    if q[0] in patch.fields {
      var pv := patch.fields[q[0]];
      assert after.Get(q[0]) == MergeMember(prior, pv, path + [q[0]], strategy);
      if prior.Some? && prior.value.Object? {
        UnmentionedIsKept(prior.value, pv, path + [q[0]], strategy, q[1..]);
      } else {
        UnmentionedIsAbsent(pv, q[1..]);
      }
    } else {
      assert after.Get(q[0]) == prior;
    }
  }

  lemma {:induction false} UnmentionedIsAbsent(patch: Value, q: Path)
    requires !Mentions(patch, q)
    ensures patch.Pointer(q) == None
    decreases |q|
  {
    if q[0] in patch.fields {
      UnmentionedIsAbsent(patch.fields[q[0]], q[1..]);
    }
  }
}
