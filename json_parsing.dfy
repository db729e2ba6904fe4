/** The earlier JSON extractor (src/fhir/jsonParsing.js): the same title, URL, narrative and
    ValueSet rules as the current one, without publisher, status, OID or bundle, and an
    expansion-code reader with no guard for a missing `contains`. */
module JsonParsing {
  import opened Wrappers
  import opened JsValues
  import opened JsonExtract

  /** What the earlier extractJSONMetadata records about a resource it reads without a fault. */
  predicate EarlierFieldsOk(parsed: JValue, m: Metadata) {
    && parsed != JNull
    && m.resourceType == KeepTruthy(Get(parsed, "resourceType"))
    && m.title == TitleOf(parsed)
    && m.url == KeepTruthy(Get(parsed, "url"))
    && m.version == KeepTruthy(Get(parsed, "version"))
    && m.publisher.None? && m.resourceStatus.None? && m.oid.None? && m.bundle.None?
    && m.narrative == NarrativeOf(parsed)
    && m.valueSetUri == ValueSetUriOf(parsed)
    && m.expansion == ExpansionOf(parsed)
  }

  /** The first statements of the earlier extractJSONMetadata: resourceType, the title by
      successive overwrites, url and version, each copied only when truthy. */
  method EarlierDescriptiveFields(parsed: JValue) returns (metadata: Metadata)
    requires parsed != JNull
    ensures metadata.resourceType == KeepTruthy(Get(parsed, "resourceType"))
    ensures metadata.title == TitleOf(parsed)
    ensures metadata.url == KeepTruthy(Get(parsed, "url"))
    ensures metadata.version == KeepTruthy(Get(parsed, "version"))
    ensures metadata.publisher.None? && metadata.resourceStatus.None? && metadata.oid.None? && metadata.bundle.None?
    ensures metadata.narrative.None? && metadata.valueSetUri.None? && metadata.expansion.None?
  {
    metadata := NoMetadata;
    if Truthy(Get(parsed, "resourceType")) {
      metadata := metadata.(resourceType := Get(parsed, "resourceType"), title := Get(parsed, "resourceType"));
    }
    if Truthy(Get(parsed, "name")) {
      metadata := metadata.(title := Get(parsed, "name"));
    }
    if Truthy(Get(parsed, "title")) {
      metadata := metadata.(title := Get(parsed, "title"));
    }
    if Truthy(Get(parsed, "url")) {
      metadata := metadata.(url := Get(parsed, "url"));
    }
    if Truthy(Get(parsed, "version")) {
      metadata := metadata.(version := Get(parsed, "version"));
    }
  }

  /** The last statements of the earlier extractJSONMetadata: the narrative from text.div, then
      the ValueSet URI and the expansion, which depend on the resource type already recorded. */
  method EarlierTypedFields(parsed: JValue, m: Metadata) returns (metadata: Metadata)
    requires parsed != JNull
    requires m.resourceType == KeepTruthy(Get(parsed, "resourceType")) && m.url == KeepTruthy(Get(parsed, "url"))
    requires m.narrative.None? && m.valueSetUri.None? && m.expansion.None?
    ensures metadata == m.(narrative := NarrativeOf(parsed), valueSetUri := ValueSetUriOf(parsed),
      expansion := ExpansionOf(parsed))
  {
    metadata := m;
    var text := Get(parsed, "text");
    if Truthy(text) && Truthy(Get(text.value, "div")) {
      metadata := metadata.(narrative := Get(text.value, "div"));
    }
    if metadata.resourceType == Some(JStr("ValueSet")) && Truthy(metadata.url) {
      metadata := metadata.(valueSetUri := metadata.url);
    } else if metadata.resourceType == Some(JStr("CodeSystem")) && Truthy(Get(parsed, "valueSet")) {
      metadata := metadata.(valueSetUri := Get(parsed, "valueSet"));
    }
    if metadata.resourceType == Some(JStr("ValueSet")) && Truthy(Get(parsed, "expansion")) {
      metadata := metadata.(expansion := Get(parsed, "expansion"));
    }
  }

  /** extractJSONMetadata of the earlier revision. Reading `resourceType` of a null resource is
      the only way its block can throw, and the catch rethrows that as a JSON parsing problem. */
  method ExtractEarlierJsonMetadata(parsed: JValue) returns (r: Result<Metadata, string>)
    ensures r.Err? <==> parsed == JNull
    ensures r.Err? ==> r.error == JsonProblem(ReadFault(Some(JNull), "resourceType"))
    ensures r.Ok? ==> EarlierFieldsOk(parsed, r.value)
  {
    if parsed == JNull {
      return Err(JsonProblem(ReadFault(Some(JNull), "resourceType")));
    }
    var metadata := EarlierDescriptiveFields(parsed);
    metadata := EarlierTypedFields(parsed, metadata);
    return Ok(metadata);
  }

  /** extractCodesFromJSONExpansion of the earlier revision: `expansion.contains.map(...)` with
      no guard, so a null expansion, a missing or null `contains`, or a `contains` that is not an
      array rejects. */
  function EarlierCodesFromJsonExpansion(expansion: JsVal): (r: Result<seq<map<string, JValue>>, string>)
    ensures r.Ok? <==> HasArray(expansion, "contains")
    ensures r.Ok? ==>
      (var items := expansion.value.props["contains"].items;
       |r.value| == |items| && forall i :: 0 <= i < |items| ==> r.value[i] == Pick(Some(items[i]), CodeKeys))
  {
    if expansion.None? || expansion == Some(JNull) then Err(ReadFault(expansion, "contains"))
    else
      var list := Get(expansion.value, "contains");
      if list.None? || list == Some(JNull) then Err(ReadFault(list, "map"))
      else if !list.value.JArr? then Err("expansion.contains.map is not a function")
      else Ok(PickAll(list.value.items, CodeKeys))
  }

  /** The two revisions agree on every field the earlier one records; the later one only adds
      publisher, status, OID and bundle. */
  lemma EarlierIsRestriction(parsed: JValue, earlier: Metadata, later: Metadata)
    requires EarlierFieldsOk(parsed, earlier) && JsonFieldsOk(parsed, later)
    ensures earlier == later.(publisher := None, resourceStatus := None, oid := None, bundle := None)
  {
  }

  /** On an expansion with a `contains` array the two code readers give the same rows; on one
      without `contains` the earlier one rejects where the later one gives no rows. */
  lemma EarlierCodesAgree(expansion: JsVal)
    requires expansion.Some? && expansion.value.JObj?
    ensures HasArray(expansion, "contains") ==> EarlierCodesFromJsonExpansion(expansion) == CodesFromJsonExpansion(expansion)
    ensures "contains" !in expansion.value.props ==>
      EarlierCodesFromJsonExpansion(expansion).Err? && CodesFromJsonExpansion(expansion) == Ok([])
  {
  }
}
