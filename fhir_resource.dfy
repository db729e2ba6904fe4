/** The FhirResource component (src/FhirResource.js): it fetches a resource, sniffs its format,
    extracts a title, URL, version and narrative, and keeps status, active tab and document
    title in its state. The fetch, JSON.parse, DOMParser and XMLSerializer are inputs. */
module FhirResourceView {
  import opened Wrappers
  import opened JsValues
  import opened ErrorTypes
  import opened XmlTree
  import RestApi
  import JsonExtract
  import RemoteResource

  /** `FhirResource.sniffFormat`: "json" when a JSON media type occurs in the header (checked
      first), "xml" for an XML one, and null otherwise. */
  function ViewSniffFormat(contentType: string): (r: Option<RestApi.Format>)
    ensures r == Some(RestApi.Json) <==> RestApi.SniffFormat(contentType) == Ok(RestApi.Json)
    ensures r == Some(RestApi.Xml) <==> RestApi.SniffFormat(contentType) == Ok(RestApi.Xml)
    ensures r.None? <==> RestApi.SniffFormat(contentType).Err?
  {
    if RestApi.MentionsAny(contentType, RestApi.JsonContentTypes) then Some(RestApi.Json)
    else if RestApi.MentionsAny(contentType, RestApi.XmlContentTypes) then Some(RestApi.Xml)
    else None
  }

  /** The metadata this component shows. */
  datatype ViewMetadata = ViewMetadata(title: JsVal, url: JsVal, version: JsVal, narrative: JsVal)

  /** The message of the error for content that is neither JSON nor XML. */
  const UnsupportedType := "Unsupported content type."

  /** What the component's JSON extractor records: the title from `title`, else `name` (no
      resource type fallback), url and version when truthy, and the narrative from text.div. */
  predicate ViewJsonFieldsOk(parsed: JValue, m: ViewMetadata)
    requires parsed != JNull
  {
    && m.title == (if Truthy(Get(parsed, "title")) then Get(parsed, "title") else KeepTruthy(Get(parsed, "name")))
    && m.url == KeepTruthy(Get(parsed, "url"))
    && m.version == KeepTruthy(Get(parsed, "version"))
    && m.narrative == JsonExtract.NarrativeOf(parsed)
  }

  /** `FhirResource.extractJSONMetadata`: parse, then fill the record; a parse error or a
      property read on a null document rejects as a JSON parsing problem. */
  method ExtractViewJsonMetadata(raw: string, parseJson: string -> Result<JValue, string>)
    returns (r: Result<ViewMetadata, string>)
    ensures parseJson(raw).Err? ==> r == Err(JsonExtract.JsonProblem(parseJson(raw).error))
    ensures parseJson(raw) == Ok(JNull) ==> r == Err(JsonExtract.JsonProblem(ReadFault(Some(JNull), "name")))
    ensures parseJson(raw).Ok? && parseJson(raw).value != JNull ==>
      r.Ok? && ViewJsonFieldsOk(parseJson(raw).value, r.value)
  {
    var parsing := parseJson(raw);
    if parsing.Err? {
      return Err(JsonExtract.JsonProblem(parsing.error));
    }
    var parsed := parsing.value;
    if parsed == JNull {
      return Err(JsonExtract.JsonProblem(ReadFault(Some(JNull), "name")));
    }
    var metadata := ViewMetadata(None, None, None, None);
    // Prefer name over title, as it is supposed to be the more human-readable.
    if Truthy(Get(parsed, "name")) {
      metadata := metadata.(title := Get(parsed, "name"));
    }
    if Truthy(Get(parsed, "title")) {
      metadata := metadata.(title := Get(parsed, "title"));
    }
    if Truthy(Get(parsed, "url")) {
      metadata := metadata.(url := Get(parsed, "url"));
    }
    if Truthy(Get(parsed, "version")) {
      metadata := metadata.(version := Get(parsed, "version"));
    }
    var text := Get(parsed, "text");
    if Truthy(text) && Truthy(Get(text.value, "div")) {
      metadata := metadata.(narrative := Get(text.value, "div"));
    }
    return Ok(metadata);
  }

  /** What the component's XML extractor records: the first `title`, else the first `name`
      anywhere in the document, the first url and version, and the first div under a text
      element, serialised. */
  predicate ViewXmlFieldsOk(root: Elem, serialize: Elem -> string, m: ViewMetadata) {
    var title := SelectInDocument(root, "title");
    var name := SelectInDocument(root, "name");
    var div := SelectInDocumentUnder(root, "text", "div");
    && m.title == (if title.Some? then ValueOf(title) else if name.Some? then ValueOf(name) else None)
    && m.url == ValueOf(SelectInDocument(root, "url"))
    && m.version == ValueOf(SelectInDocument(root, "version"))
    && m.narrative == (if div.Some? then Some(JStr(serialize(div.value))) else None)
  }

  /** `FhirResource.extractXMLMetadata`. Parsing and serialisation are total here, so it never
      rejects. */
  method ExtractViewXmlMetadata(raw: string, parse: string -> Elem, serialize: Elem -> string)
    returns (metadata: ViewMetadata)
    ensures ViewXmlFieldsOk(parse(raw), serialize, metadata)
  {
    var doc := parse(raw);
    var name := SelectInDocument(doc, "name");
    var title := SelectInDocument(doc, "title");
    var titleValue := if title.Some? then ValueOf(title) else if name.Some? then ValueOf(name) else None;
    var url := SelectInDocument(doc, "url");
    var version := SelectInDocument(doc, "version");
    metadata := ViewMetadata(titleValue, ValueOf(url), ValueOf(version), None);
    var narrative := SelectInDocumentUnder(doc, "text", "div");
    if narrative.Some? {
      metadata := metadata.(narrative := Some(JStr(serialize(narrative.value))));
    }
  }

  /** The parsers and serialiser the component relies on. */
  datatype Codecs = Codecs(parseJson: string -> Result<JValue, string>, parseXml: string -> Elem, serialize: Elem -> string)

  /** The message extraction rejects with, if it rejects: an unknown format, or JSON that does
      not parse or parses to null. XML extraction never rejects. */
  function ExtractionFailure(raw: string, format: Option<RestApi.Format>, codecs: Codecs): (r: Option<string>)
    ensures format == Some(RestApi.Xml) ==> r.None?
    ensures format.None? ==> r == Some(UnsupportedType)
    ensures format == Some(RestApi.Json) ==>
      (r.Some? <==> codecs.parseJson(raw).Err? || codecs.parseJson(raw) == Ok(JNull))
  {
    if format == Some(RestApi.Json) then
      if codecs.parseJson(raw).Err? then Some(JsonExtract.JsonProblem(codecs.parseJson(raw).error))
      else if codecs.parseJson(raw) == Ok(JNull) then Some(JsonExtract.JsonProblem(ReadFault(Some(JNull), "name")))
      else None
    else if format == Some(RestApi.Xml) then None
    else Some(UnsupportedType)
  }

  /** `FhirResource.extractMetadata`: dispatch on the sniffed format; an unknown format
      rejects. */
  method ExtractMetadata(raw: string, format: Option<RestApi.Format>, codecs: Codecs)
    returns (r: Result<ViewMetadata, string>)
    ensures r.Err? <==> ExtractionFailure(raw, format, codecs).Some?
    ensures r.Err? ==> r.error == ExtractionFailure(raw, format, codecs).value
    ensures format.None? ==> r == Err(UnsupportedType)
    ensures format == Some(RestApi.Xml) ==> r.Ok? && ViewXmlFieldsOk(codecs.parseXml(raw), codecs.serialize, r.value)
    ensures format == Some(RestApi.Json) ==>
      (r.Err? <==> codecs.parseJson(raw).Err? || codecs.parseJson(raw) == Ok(JNull))
    ensures format == Some(RestApi.Json) && r.Ok? ==> ViewJsonFieldsOk(codecs.parseJson(raw).value, r.value)
  {
    if format == Some(RestApi.Json) {
      r := ExtractViewJsonMetadata(raw, codecs.parseJson);
    } else if format == Some(RestApi.Xml) {
      var metadata := ExtractViewXmlMetadata(raw, codecs.parseXml, codecs.serialize);
      r := Ok(metadata);
    } else {
      r := Err(UnsupportedType);
    }
  }

  /** The message every getResource failure is reported with. */
  function ServerProblem(message: string): string {
    "There was a problem reaching the FHIR server: \"" + message + "\""
  }

  /** `FhirResource.handleUnsuccessfulResponse`: the not-found message for a 404, else the status
      text, even when it is empty. */
  function ViewStatusMessage(status: int, statusText: string, path: string): (r: string)
    ensures status == 404 ==> r == RemoteResource.NotFoundMessage(path)
    ensures status != 404 ==> r == statusText
  {
    if status == 404 then RemoteResource.NotFoundMessage(path) else statusText
  }

  /** How `fetch` came back: a response (its `ok` flag, status, status text, Content-Type header
      and body text), or a rejection with a message. */
  datatype ViewFetch =
    | Responded(ok: bool, status: int, statusText: string, contentType: Option<string>, text: string)
    | FetchFailed(message: string)

  /** The component's `status`. */
  datatype ViewStatus = Loading | Loaded | Failed

  /** `document.title` after componentDidUpdate has run: "title (version)" when the version is
      truthy, else the title converted to a string. */
  function DocumentTitle(title: JsVal, version: JsVal): (r: string)
    ensures Truthy(version) ==> r == ToJsString(title) + " (" + ToJsString(version) + ")"
    ensures !Truthy(version) ==> r == ToJsString(title)
  {
    if Truthy(version) then ToJsString(title) + " (" + ToJsString(version) + ")" else ToJsString(title)
  }

  /** The failure getResource stops at before extraction, if any: the fetch rejection, an
      unsuccessful response, or a missing Content-Type header. */
  function EarlyFailure(fetch: ViewFetch, path: string): (r: Option<string>)
    ensures fetch.FetchFailed? ==> r == Some(fetch.message)
    ensures fetch.Responded? && !fetch.ok ==> r == Some(ViewStatusMessage(fetch.status, fetch.statusText, path))
    ensures fetch.Responded? && fetch.ok ==> (r.Some? <==> fetch.contentType.None?)
  {
    match fetch
    case FetchFailed(m) => Some(m)
    case Responded(ok, status, statusText, contentType, _) =>
      if !ok then Some(ViewStatusMessage(status, statusText, path))
      else if contentType.None? then Some(ReadFault(Some(JNull), "match"))
      else None
  }

  /** The state of a FhirResource component; `documentTitle` is the page's title. */
  class FhirResource {
    var status: ViewStatus
    var activeTab: string
    var raw: Option<string>
    var format: Option<RestApi.Format>
    var metadata: ViewMetadata
    var error: Option<Thrown>
    var documentTitle: string

    /** The constructor: loading, with the narrative tab active. */
    constructor(documentTitle: string)
      ensures status == Loading && activeTab == "narrative"
      ensures raw.None? && format.None? && metadata == ViewMetadata(None, None, None, None) && error.None?
      ensures this.documentTitle == documentTitle
    {
      status := Loading;
      activeTab := "narrative";
      raw := None;
      format := None;
      metadata := ViewMetadata(None, None, None, None);
      error := None;
      this.documentTitle := documentTitle;
    }

    /** setActiveTab: only the active tab changes. */
    method SetActiveTab(tabName: string)
      modifies this
      ensures activeTab == tabName
      ensures status == old(status) && raw == old(raw) && format == old(format)
      ensures metadata == old(metadata) && error == old(error) && documentTitle == old(documentTitle)
    {
      activeTab := tabName;
    }

    /** handleError: record the error and show the error status. */
    method HandleError(e: Thrown)
      modifies this
      ensures error == Some(e) && status == Failed
      ensures activeTab == old(activeTab) && raw == old(raw) && format == old(format)
      ensures metadata == old(metadata) && documentTitle == old(documentTitle)
    {
      error := Some(e);
      status := Failed;
    }

    /** getResource, run once after mounting: fetch, reject unsuccessful responses, keep the raw
        text and sniffed format, then extract the metadata. Every failure is wrapped as a
        problem reaching the server and leads to the error status. */
    method GetResource(fetch: ViewFetch, path: string, codecs: Codecs)
      modifies this
      ensures activeTab == old(activeTab) && documentTitle == old(documentTitle)
      ensures EarlyFailure(fetch, path).Some? ==>
        status == Failed && error == Some(Error(ServerProblem(EarlyFailure(fetch, path).value))) &&
        raw == old(raw) && format == old(format) && metadata == old(metadata)
      ensures EarlyFailure(fetch, path).None? ==>
        raw == Some(fetch.text) && format == ViewSniffFormat(fetch.contentType.value)
      ensures EarlyFailure(fetch, path).None? && format.None? ==>
        status == Failed && error == Some(Error(ServerProblem(UnsupportedType))) && metadata == old(metadata)
      ensures EarlyFailure(fetch, path).None? ==>
        (status == Loaded <==> ExtractionFailure(fetch.text, format, codecs).None?)
      ensures EarlyFailure(fetch, path).None? && status != Loaded ==>
        error == Some(Error(ServerProblem(ExtractionFailure(fetch.text, format, codecs).value))) &&
        metadata == old(metadata)
      ensures status == Loaded ==> error == old(error) && EarlyFailure(fetch, path).None? && format.Some?
      ensures status == Loaded && format == Some(RestApi.Xml) ==>
        ViewXmlFieldsOk(codecs.parseXml(fetch.text), codecs.serialize, metadata)
      ensures status == Loaded && format == Some(RestApi.Json) ==>
        codecs.parseJson(fetch.text).Ok? && codecs.parseJson(fetch.text).value != JNull &&
        ViewJsonFieldsOk(codecs.parseJson(fetch.text).value, metadata)
      ensures status != Loaded ==> status == Failed && error.Some? && error.value.Error?
    {
      var early := EarlyFailure(fetch, path);
      if early.Some? {
        HandleError(Error(ServerProblem(early.value)));
        return;
      }
      var sniffed := ViewSniffFormat(fetch.contentType.value);
      raw := Some(fetch.text);
      format := sniffed;
      var extracted := ExtractMetadata(fetch.text, sniffed, codecs);
      if extracted.Err? {
        HandleError(Error(ServerProblem(extracted.error)));
        return;
      }
      metadata := extracted.value;
      status := Loaded;
    }

    /** componentDidUpdate: rewrite the document title when the title or version changed. */
    method UpdateDocumentTitle(prevTitle: JsVal, prevVersion: JsVal)
      modifies this
      ensures metadata.title != prevTitle || metadata.version != prevVersion ==>
        documentTitle == DocumentTitle(metadata.title, metadata.version)
      ensures metadata.title == prevTitle && metadata.version == prevVersion ==> documentTitle == old(documentTitle)
      ensures status == old(status) && activeTab == old(activeTab) && raw == old(raw) && format == old(format)
      ensures metadata == old(metadata) && error == old(error)
    {
      if metadata.title != prevTitle || metadata.version != prevVersion {
        documentTitle := DocumentTitle(metadata.title, metadata.version);
      }
    }
  }

  // ---------------------------------------------------------------------------------------
  // Properties
  // ---------------------------------------------------------------------------------------

  /** The component's sniffer never throws: every header the REST helper rejects maps to null,
      and the two agree on every header they accept. */
  lemma SniffersAgree(contentType: string)
    ensures RestApi.SniffFormat(contentType).Ok? ==> ViewSniffFormat(contentType) == Some(RestApi.SniffFormat(contentType).value)
    ensures RestApi.SniffFormat(contentType).Err? ==> ViewSniffFormat(contentType).None?
  {
  }

  /** Unlike the JSON module's extractor, the component's has no resource-type fallback: a
      resource with neither title nor name gets no title. */
  lemma NoResourceTypeFallback(parsed: JValue, m: ViewMetadata)
    requires parsed != JNull && ViewJsonFieldsOk(parsed, m)
    requires !Truthy(Get(parsed, "title")) && !Truthy(Get(parsed, "name"))
    ensures m.title.None?
  {
  }
}
