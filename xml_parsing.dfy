/** The earlier XML extractor (src/fhir/xmlParsing.js): it parses the text itself, reads the
    root's direct children, records only whether an expansion is present, and keeps neither
    publisher, status, OID nor bundle. */
module XmlParsing {
  import opened Wrappers
  import opened JsValues
  import opened XmlTree
  import opened XmlExtract

  /** The record the earlier extractor fills in; `expansion` is `true` or unset. */
  datatype EarlierXmlMetadata = EarlierXmlMetadata(
    resourceType: string,
    title: JsVal,
    url: JsVal,
    version: JsVal,
    narrative: Option<string>,
    valueSetUri: JsVal,
    expansion: Option<bool>)

  /** What the earlier extractXMLMetadata records about the parsed root `resource`. */
  predicate EarlierXmlFieldsOk(resource: Elem, serialize: Elem -> string, m: EarlierXmlMetadata) {
    && m.resourceType == resource.name
    && m.title == XmlTitleOf(resource)
    && m.url == ValueOf(Child(resource, "url"))
    && m.version == ValueOf(Child(resource, "version"))
    && (var div := SelectUnderChild(resource, "text", "div");
        m.narrative == if div.Some? then Some(serialize(div.value)) else None)
    && m.valueSetUri == XmlValueSetUriOf(resource)
    && m.expansion == (if resource.name == "ValueSet" && Child(resource, "expansion").Some? then Some(true) else None)
  }

  /** extractXMLMetadata of the earlier revision. Parsing and serialisation are total here, so
      the block never throws and its catch is never taken. */
  method ExtractEarlierXmlMetadata(raw: string, parse: string -> Elem, serialize: Elem -> string)
    returns (metadata: EarlierXmlMetadata)
    ensures EarlierXmlFieldsOk(parse(raw), serialize, metadata)
  {
    var resource := parse(raw);
    var name := Child(resource, "name");
    var title := Child(resource, "title");
    var resourceType := resource.name;
    var titleValue := if title.Some? then ValueOf(title) else if name.Some? then ValueOf(name) else Some(JStr(resourceType));
    var url := Child(resource, "url");
    var version := Child(resource, "version");
    metadata := EarlierXmlMetadata(resourceType, titleValue, ValueOf(url), ValueOf(version), None, None, None);
    // Serialise the narrative back out to a plain string.
    var narrative := SelectUnderChild(resource, "text", "div");
    if narrative.Some? {
      metadata := metadata.(narrative := Some(serialize(narrative.value)));
    }
    if metadata.resourceType == "ValueSet" {
      var expansion := if Child(resource, "expansion").Some? then Some(true) else None;
      metadata := metadata.(valueSetUri := metadata.url, expansion := expansion);
    } else if metadata.resourceType == "CodeSystem" {
      var valueSet := Child(resource, "valueSet");
      metadata := metadata.(valueSetUri := ValueOf(valueSet));
    }
  }

  /** The two revisions agree on every field the earlier one records, and the earlier one's
      `true` marks exactly the resources for which the later one keeps an expansion element. */
  lemma EarlierXmlIsRestriction(resource: Elem, serialize: Elem -> string, earlier: EarlierXmlMetadata, later: XmlMetadata)
    requires EarlierXmlFieldsOk(resource, serialize, earlier) && XmlFieldsOk(resource, serialize, later)
    ensures earlier.resourceType == later.resourceType && earlier.title == later.title
    ensures earlier.url == later.url && earlier.version == later.version
    ensures earlier.narrative == later.narrative && earlier.valueSetUri == later.valueSetUri
    ensures earlier.expansion.Some? <==> later.expansion.Some?
  {
  }
}
