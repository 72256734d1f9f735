// Strategic merge patches of the core/v1 lists, as requests: which lists are
// merged by which member, and that every other list is replaced.
module CoreLists {
  import opened Options
  import opened Text
  import opened Json
  import opened StrategicMerge
  import opened MergeLaws
  import opened PatchRequests

  /** The member by which core/v1 merges the list at a slash-joined path. */
  function CoreKey(joined: string): Option<string> {
    if joined in {"spec/containers", "spec/initContainers", "spec/ephemeralContainers", "spec/volumes",
                  "spec/imagePullSecrets", "spec/containers/env"} then Some("name")
    else if joined == "spec/containers/ports" then Some("containerPort")
    else None
  }

  lemma DefaultsAreCore(path: Path)
    ensures MergeKeyFor(KUBERNETES_DEFAULTS, path) == CoreKey(Join(path))
  {
    hide Join;
  }

  lemma JoinTwo(a: string, b: string)
    ensures Join([a, b]) == a + "/" + b
  {
    assert [a, b][1..] == [b];
  }

  lemma JoinThree(a: string, b: string, c: string)
    ensures Join([a, b, c]) == a + "/" + b + "/" + c
  {
    assert [a, b, c][1..] == [b, c];
    JoinTwo(b, c);
    assert a + "/" + (b + "/" + c) == a + "/" + b + "/" + c;
  }

  /** Which list of a `spec` this is. */
  predicate IsCoreList(list: string) {
    list in ["containers", "initContainers", "ephemeralContainers", "volumes", "imagePullSecrets"]
  }

  lemma CoreListKey(list: string)
    requires IsCoreList(list)
    ensures MergeKeyFor(KUBERNETES_DEFAULTS, ["spec", list]) == Some("name")
  {
    hide Join, IsCoreList, CoreKey;
    DefaultsAreCore(["spec", list]);
    JoinTwo("spec", list);
    SpecPath(list);
  }

  lemma SpecPath(list: string)
    requires IsCoreList(list)
    ensures CoreKey("spec" + "/" + list) == Some("name")
  {
    assert "spec" + "/" + "containers" == "spec/containers";
    assert "spec" + "/" + "initContainers" == "spec/initContainers";
    assert "spec" + "/" + "ephemeralContainers" == "spec/ephemeralContainers";
    assert "spec" + "/" + "volumes" == "spec/volumes";
    assert "spec" + "/" + "imagePullSecrets" == "spec/imagePullSecrets";
  }

  /** What a merge key reads: a string, or an integer of 64 bits as it prints. */
  lemma KeyOfIs(el: Value, mk: string, n: string)
    ensures KeyOf(el, mk) == Some(n) <==>
      || el.Get(mk) == Some(String(n))
      || exists i :: -0x8000_0000_0000_0000 <= i < 0x8000_0000_0000_0000 &&
           el.Get(mk) == Some(Integer(i)) && n == SignedDecimal(i)
  {
    if el.Get(mk).Some? && el.Get(mk).value.AsI64().Some? {
      assert el.Get(mk) == Some(Integer(el.Get(mk).value.AsI64().value));
    }
  }

  /** What a patch says to take out what it names: `"$patch": "delete"`, and no other value of that member. */
  lemma DirectiveIs(v: Value)
    ensures IsDeleteDirective(v) <==> v.Object? && Lookup(v.fields, "$patch") == Some(String("delete"))
  {
  }

  // --- One element of a keyed list -----------------------------------------------------------------

  /** Element `i` is the last under its key; a list with distinct keys has no other. */
  predicate LastOfKey(t: seq<Value>, i: nat, mk: string)
    requires i < |t|
  {
    forall j :: i < j < |t| ==> KeyOf(t[j], mk) != KeyOf(t[i], mk)
  }

  /** A patch of one known element merges the last under its key and leaves the others where they are. */
  lemma OneMerged(t: seq<Value>, i: nat, p: Value, mk: string, path: Path, strategy: Strategy)
    requires MergeKeyFor(strategy, path) == Some(mk) && i < |t| && LastOfKey(t, i, mk)
    requires KeyOf(p, mk).Some? && KeyOf(t[i], mk) == KeyOf(p, mk) && !IsDeleteDirective(p)
    ensures MergeList(t, [p], path, strategy) == t[i := Merge(t[i], p, path, strategy)]
  {
    hide Merge, KeyOf, IsDeleteDirective;
    OneFold(t[i], p, KeyOf(p, mk).value, mk, path, strategy);
    KnownFolds(t, i, [p], mk, path, strategy);
  }

  /** Two patch elements of one key are merged in their order, one into the other's result. */
  lemma TwoMerged(t: seq<Value>, i: nat, p: Value, q: Value, mk: string, path: Path, strategy: Strategy)
    requires MergeKeyFor(strategy, path) == Some(mk) && i < |t| && LastOfKey(t, i, mk)
    requires KeyOf(t[i], mk).Some? && KeyOf(p, mk) == KeyOf(q, mk) == KeyOf(t[i], mk)
    ensures !IsDeleteDirective(p) && !IsDeleteDirective(q) ==>
      MergeList(t, [p, q], path, strategy) == t[i := Merge(Merge(t[i], p, path, strategy), q, path, strategy)]
    ensures IsDeleteDirective(p) || IsDeleteDirective(q) ==>
      MergeList(t, [p, q], path, strategy) == t[..i] + t[i + 1..]
  {
    hide Merge, KeyOf, IsDeleteDirective;
    var k := KeyOf(t[i], mk).value;
    var both := [p, q];
    assert both[..1] == [p];
    OneFold(t[i], p, k, mk, path, strategy);
    if !IsDeleteDirective(p) && !IsDeleteDirective(q) {
      assert FoldMerge(t[i], both, k, mk, path, strategy)
          == Merge(FoldMerge(t[i], both[..1], k, mk, path, strategy), q, path, strategy);
      KnownFolds(t, i, both, mk, path, strategy);
    } else {
      assert both[0] == p && both[1] == q;
      KnownGoes(t, i, both, mk, path, strategy);
    }
  }

  /** Every patch element under one known key, and no delete among them. */
  lemma KnownFolds(t: seq<Value>, i: nat, ps: seq<Value>, mk: string, path: Path, strategy: Strategy)
    requires MergeKeyFor(strategy, path) == Some(mk) && i < |t| && LastOfKey(t, i, mk) && KeyOf(t[i], mk).Some?
    requires forall j :: 0 <= j < |ps| ==> KeyOf(ps[j], mk) == KeyOf(t[i], mk) && !IsDeleteDirective(ps[j])
    ensures MergeList(t, ps, path, strategy)
         == t[i := FoldMerge(t[i], ps, KeyOf(t[i], mk).value, mk, path, strategy)]
  {
    hide Merge, FoldMerge, KeyOf, IsDeleteDirective;
    var ofTarget := seq(|t|, j requires 0 <= j < |t| => TargetSlot(t, ps, j, mk, path, strategy));
    var ofPatch := seq(|ps|, j requires 0 <= j < |ps| => PatchSlot(t, ps, j, mk, path, strategy));
    var merged := t[i := FoldMerge(t[i], ps, KeyOf(t[i], mk).value, mk, path, strategy)];
    forall j | 0 <= j < |t| ensures ofTarget[j] == Some(merged[j]) {
      OwnsIsLast(t, j, mk);
      if j != i && KeyOf(t[j], mk).Some? && Owns(t, j, mk) {
        OtherKey(t, i, j, mk);
        FoldUntouched(t[j], ps, KeyOf(t[j], mk).value, mk, path, strategy);
      }
      OwnsIsLast(t, i, mk);
      TargetSlotIs(t, ps, j, mk, path, strategy);
    }
    NothingAppends(t, i, ps, mk, path, strategy);
    CollectAll(merged, ofTarget);
    CollectNone(ofPatch);
  }

  /** Under one known key with a delete among them: that element goes, whatever else is said of it. */
  lemma KnownGoes(t: seq<Value>, i: nat, ps: seq<Value>, mk: string, path: Path, strategy: Strategy)
    requires MergeKeyFor(strategy, path) == Some(mk) && i < |t| && LastOfKey(t, i, mk) && KeyOf(t[i], mk).Some?
    requires forall j :: 0 <= j < |ps| ==> KeyOf(ps[j], mk) == KeyOf(t[i], mk)
    requires exists j :: 0 <= j < |ps| && IsDeleteDirective(ps[j])
    ensures MergeList(t, ps, path, strategy) == t[..i] + t[i + 1..]
  {
    hide Merge, FoldMerge, KeyOf, IsDeleteDirective;
    var ofTarget := seq(|t|, j requires 0 <= j < |t| => TargetSlot(t, ps, j, mk, path, strategy));
    var ofPatch := seq(|ps|, j requires 0 <= j < |ps| => PatchSlot(t, ps, j, mk, path, strategy));
    var d :| 0 <= d < |ps| && IsDeleteDirective(ps[d]);
    assert Deletes(ps, KeyOf(t[i], mk).value, mk);
    forall j | 0 <= j < |t| ensures ofTarget[j] == if j == i then None else Some(t[j]) {
      OwnsIsLast(t, j, mk);
      if j != i && KeyOf(t[j], mk).Some? && Owns(t, j, mk) {
        OtherKey(t, i, j, mk);
        FoldUntouched(t[j], ps, KeyOf(t[j], mk).value, mk, path, strategy);
      }
      OwnsIsLast(t, i, mk);
      TargetSlotIs(t, ps, j, mk, path, strategy);
    }
    NothingAppends(t, i, ps, mk, path, strategy);
    CollectNone(ofPatch);
    CollectBut(t, i, ofTarget);
  }

  lemma CollectBut(t: seq<Value>, i: nat, slots: seq<Option<Value>>)
    requires i < |t| == |slots| && forall j :: 0 <= j < |t| ==> slots[j] == if j == i then None else Some(t[j])
    ensures Collect(slots) == t[..i] + t[i + 1..]
  {
    assert slots == slots[..i] + [None] + slots[i + 1..];
    CollectConcat(slots[..i] + [None], slots[i + 1..]);
    CollectConcat(slots[..i], [None]);
    CollectAll(t[..i], slots[..i]);
    CollectAll(t[i + 1..], slots[i + 1..]);
    CollectNone([None]);
  }

  lemma OwnsIsLast(t: seq<Value>, j: nat, mk: string)
    requires j < |t|
    ensures Owns(t, j, mk) <==> KeyOf(t[j], mk).Some? && LastOfKey(t, j, mk)
  {
    hide KeyOf;
    var rest := t[j + 1..];
    assert forall i :: 0 <= i < |rest| ==> rest[i] == t[j + 1 + i];
    forall i | j < i < |t| ensures t[i] == rest[i - j - 1] {}
  }

  /** Two last elements have different keys. */
  lemma OtherKey(t: seq<Value>, i: nat, j: nat, mk: string)
    requires i < |t| && j < |t| && i != j && LastOfKey(t, i, mk) && LastOfKey(t, j, mk)
    ensures KeyOf(t[i], mk) != KeyOf(t[j], mk)
  {
  }

  lemma NothingAppends(t: seq<Value>, i: nat, ps: seq<Value>, mk: string, path: Path, strategy: Strategy)
    requires i < |t| && KeyOf(t[i], mk).Some? && forall j :: 0 <= j < |ps| ==> KeyOf(ps[j], mk) == KeyOf(t[i], mk)
    ensures forall j :: 0 <= j < |ps| ==> PatchSlot(t, ps, j, mk, path, strategy) == None
  {
    hide Merge, KeyOf, IsDeleteDirective;
    assert HasKey(t, KeyOf(t[i], mk).value, mk);
  }

  lemma OneSlot(t: seq<Value>, j: nat, p: Value, mk: string, path: Path, strategy: Strategy)
    requires MergeKeyFor(strategy, path) == Some(mk) && DistinctKeys(t, mk)
    requires j < |t| && KeyOf(p, mk).Some? && !IsDeleteDirective(p)
    ensures TargetSlot(t, [p], j, mk, path, strategy) ==
      Some(if KeyOf(t[j], mk) == KeyOf(p, mk) then Merge(t[j], p, path, strategy) else t[j])
  {
    hide Merge, KeyOf, IsDeleteDirective;
    if KeyOf(t[j], mk).Some? {
      DistinctOwns(t, j, mk);
      OneFold(t[j], p, KeyOf(t[j], mk).value, mk, path, strategy);
    }
  }

  lemma OneFold(v: Value, p: Value, k: string, mk: string, path: Path, strategy: Strategy)
    ensures FoldMerge(v, [p], k, mk, path, strategy) ==
      if KeyOf(p, mk) == Some(k) && !IsDeleteDirective(p) then Merge(v, p, path, strategy) else v
    ensures Deletes([p], k, mk) <==> KeyOf(p, mk) == Some(k) && IsDeleteDirective(p)
  {
    hide Merge, KeyOf, IsDeleteDirective;
    assert [p][..0] == [];
    assert FoldMerge(v, [], k, mk, path, strategy) == v;
    if KeyOf(p, mk) == Some(k) && IsDeleteDirective(p) { assert [p][0] == p; }
  }

  /** A patch of one unknown element is put at the end. */
  lemma OneAdded(t: seq<Value>, p: Value, mk: string, path: Path, strategy: Strategy)
    requires MergeKeyFor(strategy, path) == Some(mk) && DistinctKeys(t, mk)
    requires KeyOf(p, mk).Some? && !HasKey(t, KeyOf(p, mk).value, mk) && !IsDeleteDirective(p)
    ensures MergeList(t, [p], path, strategy) == t + [p]
  {
    hide Merge, KeyOf, IsDeleteDirective;
    var ofTarget := seq(|t|, j requires 0 <= j < |t| => TargetSlot(t, [p], j, mk, path, strategy));
    var ofPatch := seq(1, j requires 0 <= j < 1 => PatchSlot(t, [p], j, mk, path, strategy));
    forall j | 0 <= j < |t| ensures ofTarget[j] == Some(t[j]) {
      OneSlot(t, j, p, mk, path, strategy);
    }
    assert [p][1..] == [] && [p][..0] == [];
    assert FoldMerge(p, [], KeyOf(p, mk).value, mk, path, strategy) == p;
    assert Appends(t, [p], 0, mk);
    PatchSlotIs(t, [p], 0, mk, path, strategy);
    assert ofPatch == [Some(p)];
    CollectAll(t, ofTarget);
    CollectAll([p], ofPatch);
  }

  /** A delete directive takes out the element it names, and nothing if there is none. */
  lemma OneDeleted(t: seq<Value>, p: Value, mk: string, path: Path, strategy: Strategy)
    requires MergeKeyFor(strategy, path) == Some(mk) && DistinctKeys(t, mk)
    requires KeyOf(p, mk).Some? && IsDeleteDirective(p)
    ensures MergeList(t, [p], path, strategy) == Without(t, KeyOf(p, mk), mk)
  {
    hide Merge, KeyOf, IsDeleteDirective;
    var ofTarget := seq(|t|, j requires 0 <= j < |t| => TargetSlot(t, [p], j, mk, path, strategy));
    var ofPatch := seq(1, j requires 0 <= j < 1 => PatchSlot(t, [p], j, mk, path, strategy));
    forall j | 0 <= j < |t|
      ensures ofTarget[j] == if KeyOf(t[j], mk) == KeyOf(p, mk) then None else Some(t[j])
    {
      TargetSlotIs(t, [p], j, mk, path, strategy);
      if KeyOf(t[j], mk).Some? {
        DistinctOwns(t, j, mk);
        OneFold(t[j], p, KeyOf(t[j], mk).value, mk, path, strategy);
      }
    }
    assert ofPatch == [None];
    CollectNone(ofPatch);
    CollectWithout(t, KeyOf(p, mk), mk, ofTarget);
  }

  /** The elements that are not under `k`, in order. */
  function Without(els: seq<Value>, k: Option<string>, mk: string): seq<Value> {
    if els == [] then [] else
      var last := els[|els| - 1];
      Without(els[..|els| - 1], k, mk) + if KeyOf(last, mk) == k then [] else [last]
  }

  lemma {:induction false} CollectWithout(els: seq<Value>, k: Option<string>, mk: string, slots: seq<Option<Value>>)
    requires |slots| == |els|
    requires forall j :: 0 <= j < |els| ==> slots[j] == if KeyOf(els[j], mk) == k then None else Some(els[j])
    ensures Collect(slots) == Without(els, k, mk)
  {
    hide KeyOf;
    if els != [] {
      CollectWithout(els[..|els| - 1], k, mk, slots[..|els| - 1]);
    }
  }

  // --- Down to the list ------------------------------------------------------------------------------

  /** A patch that says one thing, at `q`. */
  function Nest(q: Path, v: Value): Value {
    if q == [] then v else Object(map[q[0] := Nest(q[1..], v)])
  }

  lemma NestIs(q: Path, v: Value)
    requires v.Array?
    ensures (Nest(q, v).Object? <==> q != []) && !IsDeleteDirective(Nest(q, v)) && !Nest(q, v).Null?
    ensures Nest(q, v).Pointer(q) == Some(v)
  {
    if q != [] {
      NestIs(q[1..], v);
      assert Nest(q, v).fields.Keys == {q[0]};
    }
  }

  /** It makes of the list at `q` what merging that list alone makes, and touches nothing beside the way there. */
  lemma {:induction false} NestMerges(target: Value, q: Path, v: Value, path: Path, strategy: Strategy)
    requires q != [] && v.Array?
    ensures
      var w := Merge(target, Nest(q, v), path, strategy);
      && w.Object? && (forall k :: k != q[0] ==> w.Get(k) == Lookup(Members(target), k))
      && w.Pointer(q) == MergeMember(target.Pointer(q), v, path + q, strategy)
    decreases |q|, 0
  {
    hide MergeMember;
    var patch, rest := Nest(q, v), q[1..];
    var prior := Lookup(Members(target), q[0]);
    var w := Merge(target, patch, path, strategy);
    NestIs(q, v);
    NestIs(rest, v);
    assert target.Get(q[0]) == prior && patch.fields[q[0]] == Nest(rest, v);
    assert w.Get(q[0]) == MergeMember(prior, Nest(rest, v), path + [q[0]], strategy);
    NestMember(prior, rest, v, path + [q[0]], strategy);
    assert path + [q[0]] + rest == path + q;
  }

  lemma {:induction false} NestMember(prior: Option<Value>, rest: Path, v: Value, path: Path, strategy: Strategy)
    requires v.Array?
    ensures
      var after := MergeMember(prior, Nest(rest, v), path, strategy);
      && after.Some?
      && after.value.Pointer(rest)
         == MergeMember(if prior.Some? then prior.value.Pointer(rest) else None, v, path + rest, strategy)
    decreases |rest|, 1
  {
    NestIs(rest, v);
    if rest == [] {
      assert path + rest == path;
    } else if prior.Some? && prior.value.Object? {
      NestMerges(prior.value, rest, v, path, strategy);
    }
  }

  /** Every list that is not one of core/v1's keyed ones is replaced. */
  lemma OtherListsAreReplaced(contentType: string, target: Value, q: Path, els: seq<Value>,
          jsonPatch: Value -> Option<Value>)
    requires IsStrategic(contentType) && q != [] && CoreKey(Join(q)) == None
    ensures
      var edited := EditFor(contentType, Nest(q, Array(els)), jsonPatch)(target);
      edited.Some? && edited.value.Pointer(q) == Some(Array(els))
  {
    hide Join, CoreKey;
    StrategicEdit(contentType, target, Nest(q, Array(els)), jsonPatch);
    NestMerges(target, q, Array(els), [], KUBERNETES_DEFAULTS);
    assert [] + q == q;
    DefaultsAreCore(q);
  }

  /** The content types under which a patch is a strategic one. */
  ghost predicate IsStrategic(contentType: string) {
    && !Occurs(contentType, "json-patch")
    && (!Occurs(contentType, "merge-patch") || Occurs(contentType, "strategic"))
  }

  lemma StrategicEdit(contentType: string, target: Value, patch: Value, jsonPatch: Value -> Option<Value>)
    requires IsStrategic(contentType)
    ensures EditFor(contentType, patch, jsonPatch)(target) == Some(Merge(target, patch, [], KUBERNETES_DEFAULTS))
  {
    hide Occurs, Merge;
    CodecExactly(contentType);
  }

  // --- The keyed lists ---------------------------------------------------------------------------------

  /**
   * What a patch makes of one element, member by member: what it does not
   * mention stays, a null takes the member away, and anything that is neither
   * an object nor a list is set.
   */
  ghost predicate Patched(v: Value, p: Value, w: Value) {
    && w.Object?
    && (forall k :: p.Get(k) == None ==> w.Get(k) == Lookup(Members(v), k))
    && (forall k :: p.Get(k) == Some(Null) ==> w.Get(k) == None)
    && (forall k :: p.Get(k).Some? && Plain(p.Get(k).value) ==> w.Get(k) == p.Get(k))
  }

  predicate Plain(v: Value) {
    v.Bool? || v.Number? || v.String?
  }

  lemma MergeIsPatched(v: Value, p: Value, path: Path, strategy: Strategy)
    requires p.Object? && !IsDeleteDirective(p)
    ensures Patched(v, p, Merge(v, p, path, strategy))
  {
    var w := Merge(v, p, path, strategy);
    forall k | p.Get(k).Some?
      ensures w.Get(k) == MergeMember(Lookup(Members(v), k), p.fields[k], path + [k], strategy)
    {
    }
  }

  /** `r` is `t` with element `i` patched by `p`. */
  ghost predicate PatchedAt(t: seq<Value>, i: nat, p: Value, r: seq<Value>)
    requires i < |t|
  {
    && |r| == |t| && (forall j :: 0 <= j < |t| && j != i ==> r[j] == t[j])
    && Patched(t[i], p, r[i])
  }

  /** The list at `q`. */
  predicate ListAt(v: Value, q: Path, els: seq<Value>) {
    v.Pointer(q) == Some(Array(els))
  }

  /**
   * What one patch element makes of a keyed list: the element under its key is
   * patched where it stands, an unknown one is put at the end, and a delete
   * directive takes out the one it names. No other element changes.
   */
  ghost predicate OneEdited(t: seq<Value>, p: Value, mk: string, r: seq<Value>) {
    if IsDeleteDirective(p) then r == Without(t, KeyOf(p, mk), mk)
    else if exists i :: 0 <= i < |t| && KeyOf(t[i], mk) == KeyOf(p, mk) then
      exists i :: 0 <= i < |t| && KeyOf(t[i], mk) == KeyOf(p, mk) && PatchedAt(t, i, p, r)
    else r == t + [p]
  }

  lemma OneEditedIs(t: seq<Value>, p: Value, mk: string, path: Path, strategy: Strategy)
    requires MergeKeyFor(strategy, path) == Some(mk) && DistinctKeys(t, mk) && KeyOf(p, mk).Some?
    ensures OneEdited(t, p, mk, MergeList(t, [p], path, strategy))
  {
    hide Merge, MergeList, IsDeleteDirective, KeyOf, Patched;
    if IsDeleteDirective(p) {
      OneDeleted(t, p, mk, path, strategy);
    } else if i :| 0 <= i < |t| && KeyOf(t[i], mk) == KeyOf(p, mk) {
      OneMerged(t, i, p, mk, path, strategy);
      KeyedIsObject(p, mk);
      MergeIsPatched(t[i], p, path, strategy);
      assert PatchedAt(t, i, p, MergeList(t, [p], path, strategy));
    } else {
      OneAdded(t, p, mk, path, strategy);
    }
  }

  lemma ListMember(t: seq<Value>, els: seq<Value>, path: Path, strategy: Strategy)
    ensures MergeMember(Some(Array(t)), Array(els), path, strategy) == Some(Array(MergeList(t, els, path, strategy)))
  {
  }

  /**
   * A strategic patch of one element of a core/v1 list, under every content type
   * that means one: the containers, init and ephemeral containers, volumes and
   * image pull secrets of an object go by `name`.
   */
  lemma CoreListEdit(contentType: string, target: Value, list: string, t: seq<Value>, p: Value,
          jsonPatch: Value -> Option<Value>) returns (r: seq<Value>)
    requires IsStrategic(contentType) && IsCoreList(list)
    requires ListAt(target, ["spec", list], t) && DistinctKeys(t, "name") && KeyOf(p, "name").Some?
    ensures
      var edited := EditFor(contentType, Nest(["spec", list], Array([p])), jsonPatch)(target);
      edited.Some? && ListAt(edited.value, ["spec", list], r)
    ensures OneEdited(t, p, "name", r)
  {
    hide Merge, MergeMember, MergeList, Nest, IsCoreList, CoreKey, KeyOf, OneEdited, IsStrategic;
    var q := ["spec", list];
    StrategicEdit(contentType, target, Nest(q, Array([p])), jsonPatch);
    NestMerges(target, q, Array([p]), [], KUBERNETES_DEFAULTS);
    assert [] + q == q;
    CoreListKey(list);
    r := MergeList(t, [p], q, KUBERNETES_DEFAULTS);
    ListMember(t, [p], q, KUBERNETES_DEFAULTS);
    OneEditedIs(t, p, "name", q, KUBERNETES_DEFAULTS);
  }

  // --- Lists inside a container --------------------------------------------------------------------------

  /** The patch of one list of the container of a name. */
  function InContainer(name: string, member: string, els: seq<Value>): Value {
    Nest(["spec", "containers"], Array([Object(map["name" := String(name), member := Array(els)])]))
  }

  /** `r` is `t` but for the list `member` of its element `i`, which is `list`. */
  ghost predicate OnlyMember(t: seq<Value>, i: nat, member: string, list: seq<Value>, r: seq<Value>)
    requires i < |t|
  {
    && |r| == |t| && (forall j :: 0 <= j < |t| && j != i ==> r[j] == t[j])
    && (forall k :: k != member ==> r[i].Get(k) == t[i].Get(k)) && r[i].Get(member) == Some(Array(list))
  }

  lemma ElementMember(v: Value, name: string, member: string, els: seq<Value>, path: Path, strategy: Strategy)
    requires v.Get("name") == Some(String(name)) && member != "name"
    ensures
      var p := Object(map["name" := String(name), member := Array(els)]);
      var w := Merge(v, p, path, strategy);
      && !IsDeleteDirective(p) && KeyOf(p, "name") == Some(name) && KeyOf(v, "name") == Some(name)
      && (forall k :: k != member ==> w.Get(k) == v.Get(k))
      && w.Get(member) == MergeMember(v.Get(member), Array(els), path + [member], strategy)
  {
    var p := Object(map["name" := String(name), member := Array(els)]);
    var w := Merge(v, p, path, strategy);
    assert w.Get("name") == MergeMember(v.Get("name"), String(name), path + ["name"], strategy) == Some(String(name));
  }

  lemma InContainerIs(contentType: string, target: Value, t: seq<Value>, i: nat, name: string, member: string,
          els: seq<Value>, jsonPatch: Value -> Option<Value>) returns (r: seq<Value>)
    requires IsStrategic(contentType) && ListAt(target, ["spec", "containers"], t) && DistinctKeys(t, "name")
    requires i < |t| && t[i].Get("name") == Some(String(name)) && member != "name"
    ensures
      var edited := EditFor(contentType, InContainer(name, member, els), jsonPatch)(target);
      edited.Some? && ListAt(edited.value, ["spec", "containers"], r)
    ensures |r| == |t| && (forall j :: 0 <= j < |t| && j != i ==> r[j] == t[j])
    ensures forall k :: k != member ==> r[i].Get(k) == t[i].Get(k)
    ensures r[i].Get(member)
         == MergeMember(t[i].Get(member), Array(els), ["spec", "containers", member], KUBERNETES_DEFAULTS)
  {
    hide Merge, MergeMember, MergeList, CoreKey, IsStrategic, Nest, IsDeleteDirective, KeyOf;
    var q := ["spec", "containers"];
    var p := Object(map["name" := String(name), member := Array(els)]);
    StrategicEdit(contentType, target, Nest(q, Array([p])), jsonPatch);
    NestMerges(target, q, Array([p]), [], KUBERNETES_DEFAULTS);
    assert [] + q == q && q + [member] == ["spec", "containers", member];
    CoreListKey("containers");
    ListMember(t, [p], q, KUBERNETES_DEFAULTS);
    ElementMember(t[i], name, member, els, q, KUBERNETES_DEFAULTS);
    OneMerged(t, i, p, "name", q, KUBERNETES_DEFAULTS);
    r := MergeList(t, [p], q, KUBERNETES_DEFAULTS);
  }

  lemma ContainerKeys(member: string)
    ensures MergeKeyFor(KUBERNETES_DEFAULTS, ["spec", "containers", "ports"]) == Some("containerPort")
    ensures MergeKeyFor(KUBERNETES_DEFAULTS, ["spec", "containers", "env"]) == Some("name")
    ensures CoreKey("spec" + "/" + "containers" + "/" + member) == None ==>
      MergeKeyFor(KUBERNETES_DEFAULTS, ["spec", "containers", member]) == None
  {
    hide Join;
    DefaultsAreCore(["spec", "containers", "ports"]);
    DefaultsAreCore(["spec", "containers", "env"]);
    DefaultsAreCore(["spec", "containers", member]);
    JoinThree("spec", "containers", "ports");
    JoinThree("spec", "containers", "env");
    JoinThree("spec", "containers", member);
    assert "spec" + "/" + "containers" + "/" + "ports" == "spec/containers/ports";
    assert "spec" + "/" + "containers" + "/" + "env" == "spec/containers/env";
  }

  /** One port of one container: ports go by `containerPort`, and nothing else changes. */
  lemma ContainerPortEdit(contentType: string, target: Value, t: seq<Value>, i: nat, name: string, ports: seq<Value>,
          p: Value, jsonPatch: Value -> Option<Value>) returns (r: seq<Value>, after: seq<Value>)
    requires IsStrategic(contentType) && ListAt(target, ["spec", "containers"], t) && DistinctKeys(t, "name")
    requires i < |t| && t[i].Get("name") == Some(String(name)) && t[i].Get("ports") == Some(Array(ports))
    requires DistinctKeys(ports, "containerPort") && KeyOf(p, "containerPort").Some?
    ensures
      var edited := EditFor(contentType, InContainer(name, "ports", [p]), jsonPatch)(target);
      edited.Some? && ListAt(edited.value, ["spec", "containers"], r)
    ensures OnlyMember(t, i, "ports", after, r) && OneEdited(ports, p, "containerPort", after)
  {
    hide Merge, MergeMember, MergeList, IsStrategic, KeyOf, OneEdited, InContainer, MergeKeyFor;
    var q := ["spec", "containers", "ports"];
    r := InContainerIs(contentType, target, t, i, name, "ports", [p], jsonPatch);
    after := MergeList(ports, [p], q, KUBERNETES_DEFAULTS);
    ListMember(ports, [p], q, KUBERNETES_DEFAULTS);
    ContainerKeys("ports");
    OneEditedIs(ports, p, "containerPort", q, KUBERNETES_DEFAULTS);
  }

  /** One variable of one container: `env` goes by `name`, and nothing else changes. */
  lemma ContainerEnvEdit(contentType: string, target: Value, t: seq<Value>, i: nat, name: string, env: seq<Value>,
          p: Value, jsonPatch: Value -> Option<Value>) returns (r: seq<Value>, after: seq<Value>)
    requires IsStrategic(contentType) && ListAt(target, ["spec", "containers"], t) && DistinctKeys(t, "name")
    requires i < |t| && t[i].Get("name") == Some(String(name)) && t[i].Get("env") == Some(Array(env))
    requires DistinctKeys(env, "name") && KeyOf(p, "name").Some?
    ensures
      var edited := EditFor(contentType, InContainer(name, "env", [p]), jsonPatch)(target);
      edited.Some? && ListAt(edited.value, ["spec", "containers"], r)
    ensures OnlyMember(t, i, "env", after, r) && OneEdited(env, p, "name", after)
  {
    hide Merge, MergeMember, MergeList, IsStrategic, KeyOf, OneEdited, InContainer, MergeKeyFor;
    var q := ["spec", "containers", "env"];
    r := InContainerIs(contentType, target, t, i, name, "env", [p], jsonPatch);
    after := MergeList(env, [p], q, KUBERNETES_DEFAULTS);
    ListMember(env, [p], q, KUBERNETES_DEFAULTS);
    ContainerKeys("env");
    OneEditedIs(env, p, "name", q, KUBERNETES_DEFAULTS);
  }

  /** Any other list of a container is replaced. */
  lemma ContainerListIsReplaced(contentType: string, target: Value, t: seq<Value>, i: nat, name: string,
          member: string, els: seq<Value>, jsonPatch: Value -> Option<Value>) returns (r: seq<Value>)
    requires IsStrategic(contentType) && ListAt(target, ["spec", "containers"], t) && DistinctKeys(t, "name")
    requires i < |t| && t[i].Get("name") == Some(String(name)) && member != "name"
    requires CoreKey("spec" + "/" + "containers" + "/" + member) == None
    ensures
      var edited := EditFor(contentType, InContainer(name, member, els), jsonPatch)(target);
      edited.Some? && ListAt(edited.value, ["spec", "containers"], r)
    ensures OnlyMember(t, i, member, els, r)
  {
    hide Merge, CoreKey, IsStrategic, InContainer, MergeKeyFor;
    var q := ["spec", "containers", member];
    r := InContainerIs(contentType, target, t, i, name, member, els, jsonPatch);
    ContainerKeys(member);
    assert MergeMember(t[i].Get(member), Array(els), q, KUBERNETES_DEFAULTS) == Some(Array(els));
  }
}
