// Object identity and the projection of a stored entry onto the object a client sees.
module Objects {
  import opened Options
  import opened Json
  import opened Text
  import opened Storage

  /** `namespace/name`, or the bare name when the object carries no namespace. */
  function ObjectKey(v: Value): string {
    var name := OrEmpty(StrAt(v, ["metadata", "name"]));
    var ns := NamespaceIn(v);
    if ns == "" then name else ns + "/" + name
  }

  function OrEmpty(s: Option<string>): string {
    if s.Some? then s.value else ""
  }

  /** The namespace a body names; empty if it names none. */
  function NamespaceIn(v: Value): string {
    OrEmpty(StrAt(v, ["metadata", "namespace"]))
  }

  /** `metadata.resourceVersion` as a revision. */
  function ResourceVersion(v: Value): Option<nat> {
    match StrAt(v, ["metadata", "resourceVersion"])
    case None => None
    case Some(s) => ParseU64(s)
  }

  /** Set a member of `metadata`, creating `metadata` if it is absent; other shapes are left alone. */
  function SetMeta(v: Value, key: string, value: string): Value {
    if !v.Object? then v else
      var meta := if "metadata" in v.fields then v.fields["metadata"] else Object(map[]);
      if !meta.Object? then v
      else Object(v.fields["metadata" := Object(meta.fields[key := String(value)])])
  }

  /** Fill in a uid where it is absent, null or empty. */
  function EnsureUid(v: Value, uid: string): Value {
    match v.Get("metadata")
    case None => v
    case Some(meta) =>
      var blank := match meta.Get("uid")
        case None => true
        case Some(u) => u.Null? || u == String("");
      if blank && meta.Object? then SetMeta(v, "uid", uid) else v
  }

  /** `StorageClient::project`. */
  function Project(entry: Entry, namespace: Option<string>): Value {
    var v := SetMeta(entry.value, "resourceVersion", Decimal(entry.modRevision));
    if namespace.Some? then SetMeta(v, "namespace", namespace.value) else v
  }

  /** An object whose `metadata` can hold members. */
  predicate HasMeta(v: Value) {
    v.Object? && ("metadata" in v.fields ==> v.fields["metadata"].Object?)
  }

  lemma SetMetaGet(v: Value, key: string, value: string)
    requires HasMeta(v)
    ensures HasMeta(SetMeta(v, key, value))
    ensures StrAt(SetMeta(v, key, value), ["metadata", key]) == Some(value)
    ensures forall k :: k != key ==> StrAt(SetMeta(v, key, value), ["metadata", k]) == StrAt(v, ["metadata", k])
    ensures forall k :: k != "metadata" ==> SetMeta(v, key, value).Get(k) == v.Get(k)
  {
    TwoSteps(SetMeta(v, key, value), "metadata");
    TwoSteps(v, "metadata");
  }

  lemma TwoSteps(v: Value, a: string)
    ensures forall b :: v.Pointer([a, b]) == match v.Get(a) case None => None case Some(x) => x.Get(b)
  {
    forall b ensures v.Pointer([a, b]) == match v.Get(a) case None => None case Some(x) => x.Get(b) {
      assert [a, b][1..] == [b] && [b][1..] == [];
      if v.Get(a).Some? {
        var x := v.Get(a).value;
        assert x.Pointer([b]) == x.Get(b) by {
          if x.Get(b).Some? { assert x.Get(b).value.Pointer([]) == x.Get(b); }
        }
      }
    }
  }

  lemma UidKeepsTheRest(v: Value, uid: string)
    requires HasMeta(v)
    ensures HasMeta(EnsureUid(v, uid)) && forall k :: k != "metadata" ==> EnsureUid(v, uid).Get(k) == v.Get(k)
  {
  }

  /** A projected object carries its revision, and everything outside `metadata` as stored. */
  lemma ProjectCarriesRevision(entry: Entry, namespace: Option<string>)
    requires HasMeta(entry.value) && entry.modRevision < U64_LIMIT
    ensures ResourceVersion(Project(entry, namespace)) == Some(entry.modRevision)
    ensures HasMeta(Project(entry, namespace))
    ensures forall k :: k != "metadata" ==> Project(entry, namespace).Get(k) == entry.value.Get(k)
  {
  }
}
