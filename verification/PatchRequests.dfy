// A PATCH request from its content type to the stored object: which codec runs,
// and when the standard one is what ends up in the store.
module PatchRequests {
  import opened Options
  import opened Text
  import opened Json
  import opened Storage
  import opened StrategicMerge
  import opened MergeLaws
  import opened ApiServer

  /** `Some(strategy)` for the merging codecs, `None` for JSON Patch. */
  function CodecFor(contentType: string): Option<Strategy> {
    if Contains(contentType, "json-patch") then None else
    if Contains(contentType, "merge-patch") && !Contains(contentType, "strategic") then Some(NO_STRATEGY)
    else Some(KUBERNETES_DEFAULTS)
  }

  /** `apply_patch`; what JSON Patch does is a parameter. */
  function EditFor(contentType: string, patch: Value, jsonPatch: Value -> Option<Value>): Value -> Option<Value> {
    match CodecFor(contentType)
    case None => jsonPatch
    case Some(strategy) => target => Some(Merge(target, patch, [], strategy))
  }

  method ApplyPatch(target: Value, contentType: string, patch: Value, jsonPatch: Value -> Option<Value>)
    returns (patched: Option<Value>)
    ensures patched == EditFor(contentType, patch, jsonPatch)(target)
  {
    if Contains(contentType, "json-patch") {
      return jsonPatch(target);
    }
    var plain := Contains(contentType, "merge-patch") && !Contains(contentType, "strategic");
    var strategy := if plain then NO_STRATEGY else KUBERNETES_DEFAULTS;
    var merged, outcome := StrategicMergeInPlace(target, patch, strategy);
    patched := if outcome.Ok? then Some(merged) else None;
  }

  /** `part` stands somewhere in `s`. */
  ghost predicate Occurs(s: string, part: string) {
    exists before: string, after: string :: s == before + part + after
  }

  lemma ContainsIsOccurs(s: string, part: string)
    ensures Contains(s, part) <==> Occurs(s, part)
  {
    if Contains(s, part) {
      var i := Find(s, part).value;
      assert s == s[..i] + part + s[i + |part|..];
    }
    if Occurs(s, part) {
      var before: string, after: string :| s == before + part + after;
      ContainsPart(before, part, after);
    }
  }

  /** Every content type selects exactly one codec, by the names that occur in it. */
  lemma CodecExactly(contentType: string)
    ensures CodecFor(contentType) == None <==> Occurs(contentType, "json-patch")
    ensures CodecFor(contentType) == Some(NO_STRATEGY) <==>
      && !Occurs(contentType, "json-patch")
      && Occurs(contentType, "merge-patch") && !Occurs(contentType, "strategic")
    ensures CodecFor(contentType) == Some(KUBERNETES_DEFAULTS) <==>
      && !Occurs(contentType, "json-patch")
      && (!Occurs(contentType, "merge-patch") || Occurs(contentType, "strategic"))
  {
    hide Contains, Occurs;
    ContainsIsOccurs(contentType, "json-patch");
    ContainsIsOccurs(contentType, "merge-patch");
    ContainsIsOccurs(contentType, "strategic");
    assert "spec/volumes" in KUBERNETES_DEFAULTS && "spec/volumes" !in NO_STRATEGY;
  }

  const MERGE_PATCH := "application/merge-patch+json"
  const STRATEGIC_MERGE_PATCH := "application/strategic-merge-patch+json"
  const JSON_PATCH := "application/json-patch+json"

  lemma ContainsPart(before: string, part: string, after: string)
    ensures Contains(before + part + after, part)
  {
    assert MatchAt(before + part + after, |before|, part);
  }

  /** Where a part is found, its first character is. */
  lemma FoundAt(s: string, part: string)
    requires Contains(s, part) && part != ""
    ensures var i := Find(s, part).value; i + |part| <= |s| && s[i] == part[0]
  {
    var i := Find(s, part).value;
    assert s[i..i + |part|][0] == s[i];
  }

  /** A part is not in a text that nowhere has its first character early enough. */
  lemma ContainsNot(s: string, part: string)
    requires part != "" && forall i :: 0 <= i <= |s| - |part| ==> s[i] != part[0]
    ensures !Contains(s, part)
  {
    hide Find;
    if Contains(s, part) {
      FoundAt(s, part);
    }
  }

  lemma MergePatchType()
    ensures CodecFor(MERGE_PATCH) == Some(NO_STRATEGY)
  {
    hide Find;
    ContainsNot(MERGE_PATCH, "json-patch");
    ContainsNot(MERGE_PATCH, "strategic");
    ContainsPart("application/", "merge-patch", "+json");
    assert MERGE_PATCH == "application/" + "merge-patch" + "+json";
  }

  lemma StrategicMergePatchType()
    ensures CodecFor(STRATEGIC_MERGE_PATCH) == Some(KUBERNETES_DEFAULTS)
  {
    hide Find;
    ContainsNot(STRATEGIC_MERGE_PATCH, "json-patch");
    ContainsPart("application/", "strategic", "-merge-patch+json");
    assert STRATEGIC_MERGE_PATCH == "application/" + "strategic" + "-merge-patch+json";
  }

  lemma JsonPatchType()
    ensures CodecFor(JSON_PATCH) == None
  {
    hide Find;
    ContainsPart("application/", "json-patch", "+json");
    assert JSON_PATCH == "application/" + "json-patch" + "+json";
  }

  /**
   * A request under any type that selects the standard codec edits the object as
   * RFC 7386 says exactly if the patch conforms to it.
   */
  lemma MergePatchRequest(contentType: string, target: Value, patch: Value, jsonPatch: Value -> Option<Value>)
    requires CodecFor(contentType) == Some(NO_STRATEGY)
    ensures EditFor(contentType, patch, jsonPatch)(target) == Some(MergePatch(Some(target), patch))
       <==> Conforms(target, patch)
  {
    AgreesWithRfc7386(target, patch, []);
  }
}
