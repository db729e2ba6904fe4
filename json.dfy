/** Metadata, expansion codes, bundle entries and OperationOutcome errors read from a parsed JSON
    FHIR resource (src/fhir/json.js). */
module JsonExtract {
  import opened Wrappers
  import opened JsValues
  import opened ErrorTypes
  import Query

  /** The metadata record the extractors fill in. A field left unset is `None`. */
  datatype Metadata = Metadata(
    resourceType: JsVal,
    title: JsVal,
    url: JsVal,
    version: JsVal,
    publisher: JsVal,
    resourceStatus: JsVal,
    oid: Option<string>,
    narrative: JsVal,
    valueSetUri: JsVal,
    expansion: JsVal,
    bundle: JsVal)

  /** The empty object `{}` the extractors start from. */
  const NoMetadata := Metadata(None, None, None, None, None, None, None, None, None, None, None)

  /** The identifier system whose values may carry an OID URN. */
  const UriSystem := "urn:ietf:rfc:3986"

  /** The message every extraction failure is rethrown with. */
  function JsonProblem(message: string): string {
    "There was a problem parsing the JSON FHIR resource: \"" + message + "\""
  }

  /** `vs[i]` is truthy and no value before it is. */
  predicate FirstTruthyAt(vs: seq<JsVal>, i: int) {
    0 <= i < |vs| && Truthy(vs[i]) && forall j :: 0 <= j < i ==> !Truthy(vs[j])
  }

  /** The first truthy value of `vs`, or undefined when none is. */
  function FirstTruthy(vs: seq<JsVal>): (r: JsVal)
    ensures r.Some? <==> exists i :: 0 <= i < |vs| && Truthy(vs[i])
    ensures r.Some? ==> exists i :: FirstTruthyAt(vs, i) && r == vs[i]
  {
    if vs == [] then None
    else if Truthy(vs[0]) then vs[0]
    else
      var r := FirstTruthy(vs[1..]);
      assert forall i :: 1 <= i < |vs| ==> vs[i] == vs[1..][i - 1];
      r
  }

  // ---------------------------------------------------------------------------------------
  // The OID scan over identifiers
  // ---------------------------------------------------------------------------------------

  /** An identifier that the find callback accepts: system `urn:ietf:rfc:3986` and a string
      value containing an OID URN. */
  predicate IsOidId(id: JValue) {
    id.JObj? && "system" in id.props && id.props["system"] == JStr(UriSystem) &&
    "value" in id.props && id.props["value"].JStr? && Query.OidMatch(id.props["value"].s).Some?
  }

  /** The callback `id.system === 'urn:ietf:rfc:3986' && id.value.match(oidPattern)` applied to
      one identifier: `Err` with the TypeError's message when it throws, else its truthiness. */
  function OidTest(id: JValue): (r: Result<bool, string>)
    ensures r == Ok(true) <==> IsOidId(id)
    ensures r.Err? ==> id == JNull || (id.JObj? && Get(id, "system") == Some(JStr(UriSystem)))
  {
    if id == JNull then Err(ReadFault(Some(JNull), "system"))
    else if Get(id, "system") != Some(JStr(UriSystem)) then Ok(false)
    else
      var value := Get(id, "value");
      if value.None? || value == Some(JNull) then Err(ReadFault(value, "match"))
      else if !value.value.JStr? then Err("id.value.match is not a function")
      else Ok(Query.OidMatch(value.value.s).Some?)
  }

  /** `Array.prototype.find` over the outcomes of its callback, from index `i` on: the index of
      the first true outcome, stopping at the first callback that throws. */
  function FindFirst(tests: seq<Result<bool, string>>, i: nat := 0): (r: Result<Option<nat>, string>)
    requires i <= |tests|
    ensures r == Ok(None) <==> forall j :: i <= j < |tests| ==> tests[j] == Ok(false)
    ensures r.Ok? && r.value.Some? ==> i <= r.value.value < |tests| && tests[r.value.value] == Ok(true)
    ensures r.Ok? && r.value.Some? ==> forall j :: i <= j < r.value.value ==> tests[j] == Ok(false)
    ensures r.Err? ==> exists k :: Stops(tests, i, k) && tests[k] == Err(r.error)
    decreases |tests| - i
  {
    if i == |tests| then Ok(None)
    else if tests[i].Err? then Err(tests[i].error)
    else if tests[i].value then Ok(Some(i))
    else FindFirst(tests, i + 1)
  }

  /** The search from `i` reaches index `k`: every outcome in between is false. */
  predicate Stops(tests: seq<Result<bool, string>>, i: nat, k: int) {
    i <= k < |tests| && forall j :: i <= j < k ==> tests[j] == Ok(false)
  }

  /** The outcomes of the OID callback on each identifier. */
  function OidTests(ids: seq<JValue>): (r: seq<Result<bool, string>>)
    ensures |r| == |ids| && forall j :: 0 <= j < |ids| ==> r[j] == OidTest(ids[j])
  {
    seq(|ids|, j requires 0 <= j < |ids| => OidTest(ids[j]))
  }

  /** `ids.find(id => OidTest(id))`: the first accepted identifier. */
  function FindOidId(ids: seq<JValue>): Result<Option<JValue>, string> {
    match FindFirst(OidTests(ids))
    case Err(m) => Err(m)
    case Ok(None) => Ok(None)
    case Ok(Some(k)) => Ok(Some(ids[k]))
  }

  /** The identifiers a resource's `identifier` element lists: the array's items, or the single
      value wrapped in an array. */
  function IdList(identifier: JValue): (r: seq<JValue>)
    ensures !identifier.JArr? ==> r == [identifier]
    ensures identifier.JArr? ==> r == identifier.items
  {
    if identifier.JArr? then identifier.items else [identifier]
  }

  /** The identifiers scanned for an OID: none when `identifier` is falsy. */
  function ScannedIds(parsed: JValue): seq<JValue>
    requires parsed != JNull
  {
    var identifier := Get(parsed, "identifier");
    if Truthy(identifier) then IdList(identifier.value) else []
  }

  /** `oidPattern.exec(id.value)[1]`: the OID captured from an identifier's string value. */
  function CaptureOf(id: JValue): Option<string> {
    if id.JObj? && "value" in id.props && id.props["value"].JStr? then Query.OidMatch(id.props["value"].s)
    else None
  }

  /** The OID captured from the first accepted identifier, when the scan neither throws nor
      comes up empty. */
  function OidOf(parsed: JValue): Option<string>
    requires parsed != JNull
  {
    match FindOidId(ScannedIds(parsed))
    case Ok(Some(id)) => CaptureOf(id)
    case _ => None
  }

  /** The TypeError message extraction from `parsed` stops at, if any: reading a property of a
      null resource, or a throwing identifier test. */
  function JsonFault(parsed: JValue): (r: Option<string>)
    ensures parsed == JNull ==> r == Some(ReadFault(Some(JNull), "resourceType"))
    ensures parsed != JNull ==> (r.Some? <==> FindOidId(ScannedIds(parsed)).Err?)
  {
    if parsed == JNull then Some(ReadFault(Some(JNull), "resourceType"))
    else
      match FindOidId(ScannedIds(parsed))
      case Err(m) => Some(m)
      case Ok(_) => None
  }

  /** The display title: `title` when truthy, else `name` when truthy, else the resource type
      when truthy, else unset. */
  function TitleOf(parsed: JValue): (r: JsVal)
    requires parsed != JNull
    ensures r.Some? ==> Truthy(r)
  {
    if Truthy(Get(parsed, "title")) then Get(parsed, "title")
    else if Truthy(Get(parsed, "name")) then Get(parsed, "name")
    else KeepTruthy(Get(parsed, "resourceType"))
  }

  /** `parsed.text && parsed.text.div`, kept only when truthy. */
  function NarrativeOf(parsed: JValue): (r: JsVal)
    requires parsed != JNull
    ensures r.Some? ==> Truthy(r) && Truthy(Get(parsed, "text")) && r == Get(Get(parsed, "text").value, "div")
  {
    var text := Get(parsed, "text");
    if Truthy(text) then KeepTruthy(Get(text.value, "div")) else None
  }

  // ---------------------------------------------------------------------------------------
  // extractJsonMetadata
  // ---------------------------------------------------------------------------------------

  /** The ValueSet URI: the url of a ValueSet that has one, the `valueSet` element of a
      CodeSystem that has one, else unset. */
  function ValueSetUriOf(parsed: JValue): (r: JsVal)
    requires parsed != JNull
    ensures r.Some? ==> Truthy(r)
    ensures r.Some? ==> Get(parsed, "resourceType") in {Some(JStr("ValueSet")), Some(JStr("CodeSystem"))}
  {
    if Get(parsed, "resourceType") == Some(JStr("ValueSet")) && Truthy(Get(parsed, "url")) then Get(parsed, "url")
    else if Get(parsed, "resourceType") == Some(JStr("CodeSystem")) then KeepTruthy(Get(parsed, "valueSet"))
    else None
  }

  /** The expansion, noted only for a ValueSet that has one. */
  function ExpansionOf(parsed: JValue): (r: JsVal)
    requires parsed != JNull
    ensures r.Some? ==> Truthy(r) && Get(parsed, "resourceType") == Some(JStr("ValueSet"))
  {
    if Get(parsed, "resourceType") == Some(JStr("ValueSet")) then KeepTruthy(Get(parsed, "expansion")) else None
  }

  /** The whole resource, saved only for a Bundle. */
  function BundleOf(parsed: JValue): (r: JsVal)
    requires parsed != JNull
    ensures r.Some? <==> Get(parsed, "resourceType") == Some(JStr("Bundle"))
  {
    if Get(parsed, "resourceType") == Some(JStr("Bundle")) then Some(parsed) else None
  }

  /** The fields read directly from properties of the resource (everything before the OID
      scan). */
  predicate DescriptiveOk(parsed: JValue, m: Metadata)
    requires parsed != JNull
  {
    && m.resourceType == KeepTruthy(Get(parsed, "resourceType"))
    && m.title == TitleOf(parsed)
    && m.url == KeepTruthy(Get(parsed, "url"))
    && m.version == KeepTruthy(Get(parsed, "version"))
    && m.publisher == KeepTruthy(Get(parsed, "publisher"))
    && m.resourceStatus == KeepTruthy(Get(parsed, "status"))
  }

  /** What extractJsonMetadata records about a resource it reads without a fault. */
  predicate JsonFieldsOk(parsed: JValue, m: Metadata) {
    && parsed != JNull
    && DescriptiveOk(parsed, m)
    && m.oid == OidOf(parsed)
    && m.narrative == NarrativeOf(parsed)
    && m.valueSetUri == ValueSetUriOf(parsed)
    && m.expansion == ExpansionOf(parsed)
    && m.bundle == BundleOf(parsed)
  }

  /** The first statements of extractJsonMetadata: resourceType, the title by successive
      overwrites, then url, version, publisher and status, each copied only when truthy. */
  method DescriptiveFields(parsed: JValue) returns (metadata: Metadata)
    requires parsed != JNull
    ensures DescriptiveOk(parsed, metadata)
    ensures metadata.oid.None? && metadata.narrative.None? && metadata.valueSetUri.None?
    ensures metadata.expansion.None? && metadata.bundle.None?
  {
    metadata := NoMetadata;
    if Truthy(Get(parsed, "resourceType")) {
      metadata := metadata.(resourceType := Get(parsed, "resourceType"), title := Get(parsed, "resourceType"));
    }
    if Truthy(Get(parsed, "name")) {
      metadata := metadata.(title := Get(parsed, "name"));
    }
    if Truthy(Get(parsed, "title")) {
      metadata := metadata.(title := Get(parsed, "title"));
    }
    if Truthy(Get(parsed, "url")) {
      metadata := metadata.(url := Get(parsed, "url"));
    }
    if Truthy(Get(parsed, "version")) {
      metadata := metadata.(version := Get(parsed, "version"));
    }
    if Truthy(Get(parsed, "publisher")) {
      metadata := metadata.(publisher := Get(parsed, "publisher"));
    }
    if Truthy(Get(parsed, "status")) {
      metadata := metadata.(resourceStatus := Get(parsed, "status"));
    }
  }

  /** The last statements of extractJsonMetadata: the narrative from text.div, then the fields
      that depend on the resource type already recorded. */
  method TypedFields(parsed: JValue, m: Metadata) returns (metadata: Metadata)
    requires parsed != JNull
    requires m.resourceType == KeepTruthy(Get(parsed, "resourceType")) && m.url == KeepTruthy(Get(parsed, "url"))
    requires m.narrative.None? && m.valueSetUri.None? && m.expansion.None? && m.bundle.None?
    ensures metadata == m.(narrative := NarrativeOf(parsed), valueSetUri := ValueSetUriOf(parsed),
      expansion := ExpansionOf(parsed), bundle := BundleOf(parsed))
  {
    metadata := m;
    var text := Get(parsed, "text");
    if Truthy(text) && Truthy(Get(text.value, "div")) {
      metadata := metadata.(narrative := Get(text.value, "div"));
    }
    if metadata.resourceType == Some(JStr("ValueSet")) && Truthy(metadata.url) {
      metadata := metadata.(valueSetUri := metadata.url);
    } else if metadata.resourceType == Some(JStr("CodeSystem")) && Truthy(Get(parsed, "valueSet")) {
      metadata := metadata.(valueSetUri := Get(parsed, "valueSet"));
    }
    if metadata.resourceType == Some(JStr("ValueSet")) && Truthy(Get(parsed, "expansion")) {
      metadata := metadata.(expansion := Get(parsed, "expansion"));
    }
    if metadata.resourceType == Some(JStr("Bundle")) {
      metadata := metadata.(bundle := Some(parsed));
    }
  }

  /** The `try` block of extractJsonMetadata. `Err` carries the message of the TypeError the
      block stops at: reading a property of a null resource, or a throwing identifier test. */
  method ExtractJsonFields(parsed: JValue) returns (r: Result<Metadata, string>)
    ensures r.Err? <==> JsonFault(parsed).Some?
    ensures r.Err? ==> r.error == JsonFault(parsed).value
    ensures r.Ok? ==> JsonFieldsOk(parsed, r.value)
  {
    if parsed == JNull {
      return Err(ReadFault(Some(JNull), "resourceType"));
    }
    var metadata := DescriptiveFields(parsed);
    // Get an OID value, if there is one in the `identifier` element.
    var identifier := Get(parsed, "identifier");
    if Truthy(identifier) {
      var ids := IdList(identifier.value);
      var oidId := FindOidId(ids);
      if oidId.Err? {
        return Err(oidId.error);
      }
      if oidId.value.Some? {
        metadata := metadata.(oid := CaptureOf(oidId.value.value));
      }
    }
    metadata := TypedFields(parsed, metadata);
    return Ok(metadata);
  }

  /** extractJsonMetadata: the fields above, with any exception rethrown as an Error whose
      message names the JSON resource and quotes the original message. */
  method ExtractJsonMetadata(parsed: JValue) returns (r: Result<Metadata, string>)
    ensures r.Err? <==> JsonFault(parsed).Some?
    ensures r.Err? ==> r.error == JsonProblem(JsonFault(parsed).value)
    ensures r.Ok? ==> JsonFieldsOk(parsed, r.value)
  {
    var fields := ExtractJsonFields(parsed);
    if fields.Err? {
      return Err(JsonProblem(fields.error));
    }
    return fields;
  }

  // ---------------------------------------------------------------------------------------
  // Codes, entries and OperationOutcome
  // ---------------------------------------------------------------------------------------

  /** The keys an expansion code keeps. */
  const CodeKeys := {"system", "code", "display", "abstract", "inactive", "version"}

  /** The keys a bundle entry keeps. */
  const EntryKeys := {"resource", "fullUrl"}

  /** The keys of an OperationOutcome issue the error keeps. */
  const IssueKeys := {"severity", "code", "details", "diagnostics", "location", "expression"}

  /** `xs.map(x => pick(x, ...keys))` over an array's items. */
  function PickAll(items: seq<JValue>, keys: set<string>): (r: seq<map<string, JValue>>)
    ensures |r| == |items|
    ensures forall i :: 0 <= i < |r| ==> r[i].Keys <= keys
    ensures forall i :: 0 <= i < |r| ==> items[i].JObj? ==> r[i].Keys == items[i].props.Keys * keys
    ensures forall i, k :: 0 <= i < |r| && k in r[i] ==> items[i].JObj? && r[i][k] == items[i].props[k]
  {
    seq(|items|, i requires 0 <= i < |items| => Pick(Some(items[i]), keys))
  }

  /** `if (!v[field]) return []; return v[field].map(x => pick(x, ...keys))`, where `receiver`
      is the name the source gives `v`: undefined or null `v` throws on the property read, a
      truthy non-array field throws because it has no `map`. */
  function PickList(v: JsVal, receiver: string, field: string, keys: set<string>): (r: Result<seq<map<string, JValue>>, string>)
    ensures r.Err? <==> v.None? || v == Some(JNull) || (Truthy(Get(v.value, field)) && !Get(v.value, field).value.JArr?)
    ensures r.Err? && v.Some? && v != Some(JNull) ==> r.error == receiver + "." + field + ".map is not a function"
    ensures r.Ok? && !Truthy(Get(v.value, field)) ==> r.value == []
    ensures r.Ok? && Truthy(Get(v.value, field)) ==> r.value == PickAll(Get(v.value, field).value.items, keys)
  {
    if v.None? || v == Some(JNull) then Err(ReadFault(v, field))
    else
      var list := Get(v.value, field);
      if !Truthy(list) then Ok([])
      else if !list.value.JArr? then Err(receiver + "." + field + ".map is not a function")
      else Ok(PickAll(list.value.items, keys))
  }

  /** `v` is an object whose property `field` is an array. */
  predicate HasArray(v: JsVal, field: string) {
    v.Some? && v.value.JObj? && field in v.value.props && v.value.props[field].JArr?
  }

  /** extractCodesFromJsonExpansion: one row per `contains` item, in order, holding the item's
      present code keys; no `contains` gives no rows. */
  function CodesFromJsonExpansion(expansion: JsVal): (r: Result<seq<map<string, JValue>>, string>)
    ensures expansion.Some? && expansion.value.JObj? && !Truthy(Get(expansion.value, "contains")) ==> r == Ok([])
    ensures HasArray(expansion, "contains") ==>
      (var items := expansion.value.props["contains"].items;
       r.Ok? && |r.value| == |items| &&
       forall i :: 0 <= i < |items| ==> r.value[i] == Pick(Some(items[i]), CodeKeys))
  {
    PickList(expansion, "expansion", "contains", CodeKeys)
  }

  /** extractEntriesFromJsonBundle: one entry per `entry` item, in order, holding its resource
      and fullUrl when present; no `entry` gives no entries. */
  function EntriesFromJsonBundle(bundle: JsVal): (r: Result<seq<map<string, JValue>>, string>)
    ensures bundle.Some? && bundle.value.JObj? && !Truthy(Get(bundle.value, "entry")) ==> r == Ok([])
    ensures HasArray(bundle, "entry") ==>
      (var items := bundle.value.props["entry"].items;
       r.Ok? && |r.value| == |items| &&
       forall i :: 0 <= i < |items| ==> r.value[i] == Pick(Some(items[i]), EntryKeys))
  {
    PickList(bundle, "bundle", "entry", EntryKeys)
  }

  /** `issue.length === 0` for the kinds of value `issue` can be: arrays and strings by their
      length, objects by a `length` property; numbers and booleans have none. */
  predicate EmptyLength(issue: JValue)
    requires issue != JNull
  {
    match issue
    case JArr(items) => items == []
    case JStr(s) => s == ""
    case JObj(props) => "length" in props && props["length"] == JNum(0)
    case _ => false
  }

  /** `issue[0]` for a value whose length is not zero. */
  function FirstItem(issue: JValue): JsVal
    requires issue != JNull
  {
    match issue
    case JArr(items) => if items == [] then None else Some(items[0])
    case JStr(s) => if s == "" then None else Some(JStr([s[0]]))
    case JObj(props) => Get(issue, "0")
    case _ => None
  }

  /** opOutcomeFromJsonResponse on the response's `data`: null (Ok(None)) unless the resource
      is an OperationOutcome with a non-empty issue list; otherwise the error built from the
      first issue restricted to the six issue keys. */
  function OpOutcomeFromJsonResponse(data: JsVal): (r: Result<Option<Thrown>, string>)
    ensures r.Err? <==> (data.None? || data == Some(JNull) ||
      (Get(data.value, "resourceType") == Some(JStr("OperationOutcome")) &&
       (Get(data.value, "issue").None? || Get(data.value, "issue") == Some(JNull))))
    ensures r.Ok? && Get(data.value, "resourceType") != Some(JStr("OperationOutcome")) ==> r.value.None?
    ensures r.Ok? && Get(data.value, "resourceType") == Some(JStr("OperationOutcome")) ==>
      (r.value.Some? <==> !EmptyLength(Get(data.value, "issue").value))
    ensures r.Ok? && r.value.Some? ==> r.value.value.OpOutcome? && r.value.value.issue.Keys <= IssueKeys
    ensures r.Ok? && r.value.Some? ==> r.value.value == NewOpOutcomeError(Pick(FirstItem(Get(data.value, "issue").value), IssueKeys))
  {
    if data.None? || data == Some(JNull) then Err(ReadFault(data, "resourceType"))
    else if Get(data.value, "resourceType") != Some(JStr("OperationOutcome")) then Ok(None)
    else
      var issue := Get(data.value, "issue");
      if issue.None? || issue == Some(JNull) then Err(ReadFault(issue, "length"))
      else if EmptyLength(issue.value) then Ok(None)
      else Ok(Some(NewOpOutcomeError(Pick(FirstItem(issue.value), IssueKeys))))
  }

  // ---------------------------------------------------------------------------------------
  // Properties of the extraction
  // ---------------------------------------------------------------------------------------

  /** The display title preference: `title` over `name` over the resource type, each taken only
      when truthy. */
  lemma TitlePriority(parsed: JValue)
    requires parsed != JNull
    ensures TitleOf(parsed) == FirstTruthy([Get(parsed, "title"), Get(parsed, "name"), Get(parsed, "resourceType")])
  {
    var rt := [Get(parsed, "resourceType")];
    var name := [Get(parsed, "name")] + rt;
    var vs := [Get(parsed, "title")] + name;
    assert vs[1..] == name && name[1..] == rt && rt[1..] == [];
    assert FirstTruthy(rt) == KeepTruthy(Get(parsed, "resourceType"));
    assert vs == [Get(parsed, "title"), Get(parsed, "name"), Get(parsed, "resourceType")];
  }

  /** A single identifier object is scanned like a one-element array holding it. */
  lemma SingleIdentifier(parsed: JValue, id: map<string, JValue>)
    requires parsed != JNull && Get(parsed, "identifier") == Some(JObj(id))
    ensures ScannedIds(parsed) == [JObj(id)]
    ensures OidOf(parsed).Some? <==> IsOidId(JObj(id))
  {
    assert ScannedIds(parsed) == [JObj(id)];
    OneIdScan(JObj(id));
  }

  /** A one-element list yields its element exactly when the element is accepted. */
  lemma OneIdScan(x: JValue)
    ensures var r := FindOidId([x]); (r.Ok? && r.value.Some?) <==> IsOidId(x)
    ensures var r := FindOidId([x]); r.Ok? && r.value.Some? ==> r.value.value == x
  {
    var tests := OidTests([x]);
    assert tests == [OidTest(x)];
  }

  /** The OID is the capture of the first accepted identifier: every identifier before it is
      rejected without throwing. */
  lemma OidFromFirstMatch(ids: seq<JValue>, k: nat)
    requires k < |ids| && IsOidId(ids[k])
    requires forall j :: 0 <= j < k ==> OidTest(ids[j]) == Ok(false)
    ensures FindOidId(ids) == Ok(Some(ids[k]))
  {
    var tests := OidTests(ids);
    assert tests[k] == Ok(true);
    FindFirstAt(tests, k);
  }

  /** The search returns the index it stops at when the outcome there is true. */
  lemma FindFirstAt(tests: seq<Result<bool, string>>, k: nat)
    requires Stops(tests, 0, k) && tests[k] == Ok(true)
    ensures FindFirst(tests) == Ok(Some(k))
  {
  }

  /** An accepted-system identifier without a value stops the scan with a TypeError, which
      extraction reports as a JSON problem. */
  lemma MissingValueFault(parsed: JValue, id: map<string, JValue>)
    requires parsed != JNull && Get(parsed, "identifier") == Some(JArr([JObj(id)]))
    requires "system" in id && id["system"] == JStr(UriSystem) && "value" !in id
    ensures JsonFault(parsed) == Some(ReadFault(None, "match"))
  {
    assert ScannedIds(parsed) == [JObj(id)];
    assert OidTests([JObj(id)])[0] == Err(ReadFault(None, "match"));
  }

  /** What the identifier scan reports, for every list: no match exactly when every callback
      returns false; otherwise an accepted identifier that every earlier one was rejected before,
      or the message of the first callback that throws after only rejections. */
  lemma {:induction false} FindOidIdMeaning(ids: seq<JValue>)
    ensures FindOidId(ids) == Ok(None) <==> forall j :: 0 <= j < |ids| ==> OidTest(ids[j]) == Ok(false)
    ensures FindOidId(ids).Ok? && FindOidId(ids).value.Some? ==>
      exists k :: 0 <= k < |ids| && FindOidId(ids).value.value == ids[k] && IsOidId(ids[k]) && Stops(OidTests(ids), 0, k)
    ensures FindOidId(ids).Err? ==>
      exists k :: Stops(OidTests(ids), 0, k) && OidTest(ids[k]) == Err(FindOidId(ids).error)
  {
    var tests := OidTests(ids);
    var f := FindFirst(tests);
    if f.Ok? && f.value.Some? {
      var k := f.value.value;
      assert tests[k] == OidTest(ids[k]) == Ok(true);
      assert Stops(tests, 0, k);
    }
    if f.Err? {
      var k :| Stops(tests, 0, k) && tests[k] == Err(f.error);
      assert OidTest(ids[k]) == Err(f.error);
    }
    if f == Ok(None) {
      assert forall j :: 0 <= j < |ids| ==> tests[j] == OidTest(ids[j]);
    }
  }

  /** The recorded OID always comes from an accepted identifier of the resource. */
  lemma OidFromScannedIdentifier(parsed: JValue)
    requires parsed != JNull
    ensures OidOf(parsed).Some? ==>
      exists k :: 0 <= k < |ScannedIds(parsed)| && IsOidId(ScannedIds(parsed)[k]) &&
        OidOf(parsed) == CaptureOf(ScannedIds(parsed)[k])
  {
    FindOidIdMeaning(ScannedIds(parsed));
  }

  /** The fields that depend on the resource type: an expansion and a saved bundle never occur
      together, and a ValueSet URI is recorded only for ValueSets and CodeSystems. */
  lemma TypeDependentFields(parsed: JValue, m: Metadata)
    requires JsonFieldsOk(parsed, m)
    ensures !(m.expansion.Some? && m.bundle.Some?)
    ensures m.valueSetUri.Some? ==> m.resourceType in {Some(JStr("ValueSet")), Some(JStr("CodeSystem"))}
    ensures m.bundle.Some? ==> m.bundle == Some(parsed) && m.resourceType == Some(JStr("Bundle"))
  {
  }
}
