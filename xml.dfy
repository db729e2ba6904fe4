/** Metadata, expansion codes, bundle entries and OperationOutcome errors read from a parsed XML
    FHIR resource (src/fhir/xml.js). The document is its root element; parsing and
    serialisation are the browser's and enter as function parameters. */
module XmlExtract {
  import opened Wrappers
  import opened JsValues
  import opened ErrorTypes
  import opened XmlTree
  import JsonExtract
  import Query

  /** The metadata record extractXmlMetadata fills in. Attribute reads are `None` (undefined)
      when the element is absent and `Some(JNull)` when it has no `value` attribute. The status
      is recorded as `status`, the expansion and bundle as elements. */
  datatype XmlMetadata = XmlMetadata(
    resourceType: string,
    title: JsVal,
    url: JsVal,
    version: JsVal,
    publisher: JsVal,
    status: JsVal,
    oid: Option<string>,
    narrative: Option<string>,
    valueSetUri: JsVal,
    expansion: Option<Elem>,
    bundle: Option<Elem>)

  /** The display title: the value attribute of the first `title` child, else of the first
      `name` child, else the root's name. A child without a value attribute gives null and
      stops the fallback. */
  function XmlTitleOf(resource: Elem): (r: JsVal)
    ensures r.Some?
    ensures Child(resource, "title").Some? ==> r == ValueOf(Child(resource, "title"))
    ensures Child(resource, "title").None? && Child(resource, "name").Some? ==> r == ValueOf(Child(resource, "name"))
    ensures Child(resource, "title").None? && Child(resource, "name").None? ==> r == Some(JStr(resource.name))
  {
    var title := Child(resource, "title");
    var name := Child(resource, "name");
    if title.Some? then ValueOf(title) else if name.Some? then ValueOf(name) else Some(JStr(resource.name))
  }

  /** The identifier block's guard before the match: a first `system` whose value is
      `urn:ietf:rfc:3986`, and a first `value` element. */
  predicate IdentifierChecked(resource: Elem) {
    && SelectUnderChild(resource, "identifier", "system").Some?
    && ValueAttr(SelectUnderChild(resource, "identifier", "system").value) == JStr(JsonExtract.UriSystem)
    && SelectUnderChild(resource, "identifier", "value").Some?
  }

  /** The identifier check: only the first `system` and the first `value` found under the
      `identifier` children are looked at. `Err` is the TypeError of matching a value element
      that has no value attribute; `Ok(Some(oid))` the captured OID. */
  function XmlOidScan(resource: Elem): (r: Result<Option<string>, string>)
    ensures r.Err? <==>
      SelectUnderChild(resource, "identifier", "system").Some? &&
      ValueAttr(SelectUnderChild(resource, "identifier", "system").value) == JStr(JsonExtract.UriSystem) &&
      SelectUnderChild(resource, "identifier", "value").Some? &&
      SelectUnderChild(resource, "identifier", "value").value.value.None?
    ensures r.Ok? && r.value.Some? ==>
      SelectUnderChild(resource, "identifier", "value").Some? &&
      SelectUnderChild(resource, "identifier", "value").value.value.Some? &&
      r.value == Query.OidMatch(SelectUnderChild(resource, "identifier", "value").value.value.value)
    ensures IdentifierChecked(resource) && SelectUnderChild(resource, "identifier", "value").value.value.Some? ==>
      r == Ok(Query.OidMatch(SelectUnderChild(resource, "identifier", "value").value.value.value))
    ensures !IdentifierChecked(resource) ==> r == Ok(None)
  {
    var system := SelectUnderChild(resource, "identifier", "system");
    var value := SelectUnderChild(resource, "identifier", "value");
    if system.Some? && ValueAttr(system.value) == JStr(JsonExtract.UriSystem) && value.Some? then
      if value.value.value.None? then Err(ReadFault(Some(JNull), "match"))
      else Ok(Query.OidMatch(value.value.value.value))
    else Ok(None)
  }

  /** The ValueSet URI: a ValueSet's url (even undefined), a CodeSystem's valueSet value, else
      unset. */
  function XmlValueSetUriOf(resource: Elem): JsVal {
    if resource.name == "ValueSet" then ValueOf(Child(resource, "url"))
    else if resource.name == "CodeSystem" then ValueOf(Child(resource, "valueSet"))
    else None
  }

  /** What extractXmlMetadata records about a resource it reads without a fault. */
  predicate XmlFieldsOk(resource: Elem, serialize: Elem -> string, m: XmlMetadata) {
    && m.resourceType == resource.name
    && m.title == XmlTitleOf(resource)
    && m.url == ValueOf(Child(resource, "url"))
    && m.version == ValueOf(Child(resource, "version"))
    && m.publisher == ValueOf(Child(resource, "publisher"))
    && m.status == ValueOf(Child(resource, "status"))
    && XmlOidScan(resource).Ok? && m.oid == XmlOidScan(resource).value
    && (var div := SelectUnderChild(resource, "text", "div");
        m.narrative == if div.Some? then Some(serialize(div.value)) else None)
    && m.valueSetUri == XmlValueSetUriOf(resource)
    && m.expansion == (if resource.name == "ValueSet" then Child(resource, "expansion") else None)
    && m.bundle == (if resource.name == "Bundle" then Some(resource) else None)
  }

  /** The first statements of extractXmlMetadata: resource type, title, and the value attributes
      of the url, version, publisher and status children. */
  method XmlDescriptiveFields(resource: Elem) returns (metadata: XmlMetadata)
    ensures metadata.resourceType == resource.name && metadata.title == XmlTitleOf(resource)
    ensures metadata.url == ValueOf(Child(resource, "url"))
    ensures metadata.version == ValueOf(Child(resource, "version"))
    ensures metadata.publisher == ValueOf(Child(resource, "publisher"))
    ensures metadata.status == ValueOf(Child(resource, "status"))
    ensures metadata.oid.None? && metadata.narrative.None? && metadata.valueSetUri.None?
    ensures metadata.expansion.None? && metadata.bundle.None?
  {
    var name := Child(resource, "name");
    var title := Child(resource, "title");
    var resourceType := resource.name;
    var titleValue := if title.Some? then ValueOf(title) else if name.Some? then ValueOf(name) else Some(JStr(resourceType));
    var url := Child(resource, "url");
    var version := Child(resource, "version");
    var publisher := Child(resource, "publisher");
    var status := Child(resource, "status");
    metadata := XmlMetadata(resourceType, titleValue, ValueOf(url), ValueOf(version), ValueOf(publisher),
      ValueOf(status), None, None, None, None, None);
  }

  /** The identifier block of extractXmlMetadata: an OID from a `urn:ietf:rfc:3986` identifier,
      and the TypeError raised when that identifier's value element has no value attribute. */
  method XmlIdentifierOid(resource: Elem) returns (r: Result<Option<string>, string>)
    ensures r == XmlOidScan(resource)
  {
    r := Ok(None);
    var identifierSystem := SelectUnderChild(resource, "identifier", "system");
    var identifierValue := SelectUnderChild(resource, "identifier", "value");
    if identifierSystem.Some? && ValueAttr(identifierSystem.value) == JStr(JsonExtract.UriSystem) && identifierValue.Some? {
      if identifierValue.value.value.None? {
        return Err(ReadFault(Some(JNull), "match"));
      }
      r := Ok(Query.OidMatch(identifierValue.value.value.value));
    }
  }

  /** The later blocks of extractXmlMetadata: the serialised narrative, the ValueSet URI and
      expansion, and the whole resource for a Bundle. */
  method XmlTypedFields(resource: Elem, serialize: Elem -> string, metadata: XmlMetadata) returns (m: XmlMetadata)
    requires metadata.resourceType == resource.name && metadata.url == ValueOf(Child(resource, "url"))
    requires metadata.narrative.None? && metadata.valueSetUri.None?
    requires metadata.expansion.None? && metadata.bundle.None?
    ensures m.(narrative := None, valueSetUri := None, expansion := None, bundle := None) == metadata
    ensures var div := SelectUnderChild(resource, "text", "div");
      m.narrative == if div.Some? then Some(serialize(div.value)) else None
    ensures m.valueSetUri == XmlValueSetUriOf(resource)
    ensures m.expansion == (if resource.name == "ValueSet" then Child(resource, "expansion") else None)
    ensures m.bundle == (if resource.name == "Bundle" then Some(resource) else None)
  {
    m := metadata;
    // Get the narrative, serialised back to a string.
    var narrative := SelectUnderChild(resource, "text", "div");
    if narrative.Some? {
      m := m.(narrative := Some(serialize(narrative.value)));
    }
    if m.resourceType == "ValueSet" {
      m := m.(valueSetUri := m.url, expansion := Child(resource, "expansion"));
    } else if m.resourceType == "CodeSystem" {
      m := m.(valueSetUri := ValueOf(Child(resource, "valueSet")));
    }
    // Save the whole resource if this is a Bundle.
    if m.resourceType == "Bundle" {
      m := m.(bundle := Some(resource));
    }
  }

  /** extractXmlMetadata on a parsed document's root element. The only fault is the TypeError of
      the identifier check. */
  method ExtractXmlMetadata(resource: Elem, serialize: Elem -> string) returns (r: Result<XmlMetadata, string>)
    ensures r.Err? <==> XmlOidScan(resource).Err?
    ensures r.Err? ==> r.error == ReadFault(Some(JNull), "match")
    ensures r.Ok? ==> XmlFieldsOk(resource, serialize, r.value)
  {
    var metadata := XmlDescriptiveFields(resource);
    // Get an OID value, if there is one in the `identifier` element.
    var oid := XmlIdentifierOid(resource);
    if oid.Err? {
      return Err(oid.error);
    }
    if oid.value.Some? {
      metadata := metadata.(oid := oid.value);
    }
    metadata := XmlTypedFields(resource, serialize, metadata);
    return Ok(metadata);
  }

  /** extractRawXmlMetadata: parse the text, then extract. */
  method ExtractRawXmlMetadata(raw: string, parse: string -> Elem, serialize: Elem -> string)
    returns (r: Result<XmlMetadata, string>)
    ensures r.Err? <==> XmlOidScan(parse(raw)).Err?
    ensures r.Ok? ==> XmlFieldsOk(parse(raw), serialize, r.value)
  {
    r := ExtractXmlMetadata(parse(raw), serialize);
  }

  // ---------------------------------------------------------------------------------------
  // Codes, entries and OperationOutcome
  // ---------------------------------------------------------------------------------------

  /** The elements an expansion code is read from, in the order they are looked up. */
  const CodeElements := ["system", "code", "display", "abstract", "inactive", "version"]

  /** The elements of an OperationOutcome issue that are read, in order. */
  const IssueElements := ["severity", "code", "details", "diagnostics", "location", "expression"]

  /** The object the lookup loop fills: for each listed name that some descendant of `e`
      carries, the first such descendant's value attribute. */
  function FoundValues(e: Elem, elements: seq<string>): (r: map<string, JValue>)
    ensures forall k :: k in r <==> k in elements && Select(e, k).Some?
    ensures forall k :: k in r ==> r[k] == ValueAttr(Select(e, k).value)
  {
    if elements == [] then map[]
    else
      var m := FoundValues(e, elements[..|elements| - 1]);
      var element := elements[|elements| - 1];
      var found := Select(e, element);
      if found.Some? then m[element := ValueAttr(found.value)] else m
  }

  /** The loop `for (const element of elements) { found = e.querySelector(element); if (found)
      extracted[element] = found.getAttribute('value') }`. */
  method ExtractFound(e: Elem, elements: seq<string>) returns (extracted: map<string, JValue>)
    ensures extracted == FoundValues(e, elements)
  {
    extracted := map[];
    for j := 0 to |elements|
      invariant extracted == FoundValues(e, elements[..j])
    {
      var element := elements[j];
      assert elements[..j + 1][..j] == elements[..j];
      var found := Select(e, element);
      if found.Some? {
        extracted := extracted[element := ValueAttr(found.value)];
      }
    }
    assert elements[..|elements|] == elements;
  }

  /** extractCodesFromXMLExpansion: one row per `contains` descendant in document order, holding
      the value attribute of the first descendant with each code element's name. */
  method CodesFromXmlExpansion(expansion: Elem) returns (codes: seq<map<string, JValue>>)
    ensures |codes| == |SelectAll(expansion, "contains")|
    ensures forall i :: 0 <= i < |codes| ==> codes[i] == FoundValues(SelectAll(expansion, "contains")[i], CodeElements)
  {
    var contains := SelectAll(expansion, "contains");
    codes := [];
    for i := 0 to |contains|
      invariant |codes| == i
      invariant forall k :: 0 <= k < i ==> codes[k] == FoundValues(contains[k], CodeElements)
    {
      var extracted := ExtractFound(contains[i], CodeElements);
      codes := codes + [extracted];
    }
  }

  /** A bundle entry: the entry's resource element (null when there is none) and its fullUrl. */
  datatype XmlEntry = XmlEntry(resource: Option<Elem>, fullUrl: JsVal)

  /** extractEntriesFromXmlBundle: one entry per `entry` descendant in document order. */
  method EntriesFromXmlBundle(bundle: Elem) returns (entries: seq<XmlEntry>)
    ensures |entries| == |SelectAll(bundle, "entry")|
    ensures forall i :: 0 <= i < |entries| ==>
      var e := SelectAll(bundle, "entry")[i];
      entries[i] == XmlEntry(SelectInside(e, "resource"), ValueOf(Select(e, "fullUrl")))
  {
    var entryElements := SelectAll(bundle, "entry");
    entries := [];
    for i := 0 to |entryElements|
      invariant |entries| == i
      invariant forall k :: 0 <= k < i ==>
        entries[k] == XmlEntry(SelectInside(entryElements[k], "resource"), ValueOf(Select(entryElements[k], "fullUrl")))
    {
      var resource := SelectInside(entryElements[i], "resource");
      var fullUrl := Select(entryElements[i], "fullUrl");
      entries := entries + [XmlEntry(resource, ValueOf(fullUrl))];
    }
  }

  /** The error opOutcomeFromXmlResponse builds from a parsed document: none unless the root is
      an OperationOutcome with an `issue` child, else one from that first issue's elements. */
  function XmlOpOutcome(resource: Elem): (r: Option<Thrown>)
    ensures r.Some? ==> r.value.OpOutcome? && r.value.issue.Keys <= JsonExtract.IssueKeys
  {
    assert forall k :: k in JsonExtract.IssueKeys <==> k in IssueElements;
    if resource.name != "OperationOutcome" then None
    else
      var issue := Child(resource, "issue");
      if issue.None? then None else Some(NewOpOutcomeError(FoundValues(issue.value, IssueElements)))
  }

  /** opOutcomeFromXmlResponse on a response body: null unless the root is an OperationOutcome
      with an `issue` child; otherwise the error built from the first issue's six elements. */
  method OpOutcomeFromXmlResponse(raw: string, parse: string -> Elem) returns (r: Option<Thrown>)
    ensures r.Some? <==> parse(raw).name == "OperationOutcome" && Child(parse(raw), "issue").Some?
    ensures r.Some? ==> r.value == NewOpOutcomeError(FoundValues(Child(parse(raw), "issue").value, IssueElements))
    ensures r == XmlOpOutcome(parse(raw))
  {
    var resource := parse(raw);
    if resource.name != "OperationOutcome" {
      return None;
    }
    // Only the first issue is looked at.
    var issue := Child(resource, "issue");
    if issue.None? {
      return None;
    }
    var extracted := ExtractFound(issue.value, IssueElements);
    return Some(NewOpOutcomeError(extracted));
  }

  // ---------------------------------------------------------------------------------------
  // Properties of the extraction
  // ---------------------------------------------------------------------------------------

  /** Only the first `system` under the identifiers is checked: when it names another system, no
      OID is recorded and nothing throws, whatever later identifiers hold. */
  lemma OnlyFirstSystemChecked(resource: Elem, serialize: Elem -> string, m: XmlMetadata)
    requires SelectUnderChild(resource, "identifier", "system").Some?
    requires ValueAttr(SelectUnderChild(resource, "identifier", "system").value) != JStr(JsonExtract.UriSystem)
    requires XmlFieldsOk(resource, serialize, m)
    ensures m.oid.None?
  {
  }

  /** An OID is recorded only from a system `urn:ietf:rfc:3986` and a value matching the OID
      pattern, and it is that match's capture. */
  lemma XmlOidSource(resource: Elem, serialize: Elem -> string, m: XmlMetadata)
    requires XmlFieldsOk(resource, serialize, m) && m.oid.Some?
    ensures SelectUnderChild(resource, "identifier", "system").Some?
    ensures ValueAttr(SelectUnderChild(resource, "identifier", "system").value) == JStr(JsonExtract.UriSystem)
    ensures SelectUnderChild(resource, "identifier", "value").Some?
    ensures SelectUnderChild(resource, "identifier", "value").value.value.Some?
    ensures m.oid == Query.OidMatch(SelectUnderChild(resource, "identifier", "value").value.value.value)
  {
  }

  /** The converse: when the first system is `urn:ietf:rfc:3986` and the first value element
      has its attribute, the OID recorded is that value's OID capture, so an OID is recorded
      exactly when "urn:oid:" and a digit or dot occur in the value. */
  lemma XmlOidRecorded(resource: Elem, serialize: Elem -> string, m: XmlMetadata, v: string)
    requires XmlFieldsOk(resource, serialize, m) && IdentifierChecked(resource)
    requires SelectUnderChild(resource, "identifier", "value").value.value == Some(v)
    ensures m.oid == Query.OidMatch(v)
    ensures m.oid.None? <==> forall i :: 0 <= i ==> !Query.OidAt(v, i)
  {
  }

  /** An expansion is kept only for a ValueSet and the resource only for a Bundle, so never
      both; the ValueSet URI is set only for ValueSets and CodeSystems. */
  lemma XmlTypeDependentFields(resource: Elem, serialize: Elem -> string, m: XmlMetadata)
    requires XmlFieldsOk(resource, serialize, m)
    ensures !(m.expansion.Some? && m.bundle.Some?)
    ensures m.valueSetUri.Some? ==> resource.name == "ValueSet" || resource.name == "CodeSystem"
    ensures m.bundle.Some? <==> resource.name == "Bundle"
  {
  }

  /** The XML and JSON code readers look at the same six fields. */
  lemma XmlCodeFields(e: Elem)
    ensures FoundValues(e, CodeElements).Keys <= JsonExtract.CodeKeys
    ensures forall k :: k in JsonExtract.CodeKeys ==> (k in FoundValues(e, CodeElements) <==> Select(e, k).Some?)
  {
    assert forall k :: k in JsonExtract.CodeKeys <==> k in CodeElements;
  }

  /** An issue read from XML holds only strings and nulls, so the error's message is its
      diagnostics text: "" without a diagnostics element, "null" for one without a value
      attribute. Display text, which only JSON issues carry, never applies. */
  lemma XmlOpOutcomeMessage(issue: Elem, r: Thrown)
    requires r == NewOpOutcomeError(FoundValues(issue, IssueElements))
    ensures r.issue.Keys <= JsonExtract.IssueKeys
    ensures r.message ==
      if Select(issue, "diagnostics").None? then ""
      else if Select(issue, "diagnostics").value.value.None? then "null"
      else Select(issue, "diagnostics").value.value.value
  {
    var extracted := FoundValues(issue, IssueElements);
    assert forall k :: k in JsonExtract.IssueKeys <==> k in IssueElements;
    XmlIssueMessage(extracted);
  }
}
