/** Fetching a resource and classifying failures (src/RemoteFhirResource.js): which error an
    unsuccessful response is reported as, what a successful fetch yields, and how the
    component's state follows a fetch. The HTTP request itself is an input. */
module RemoteResource {
  import opened Wrappers
  import opened JsValues
  import opened ErrorTypes
  import opened XmlTree
  import opened RestApi
  import JsonExtract
  import XmlExtract

  /** What the viewer reads of an HTTP response: the Content-Type header (absent or a string),
      the parsed body, the body text, the status code and the status text. */
  datatype Response = Response(contentType: Option<string>, data: JsVal, responseText: string, status: int, statusText: string)

  /** `String(response)` for a response object: what a DOMParser is given when handed the
      response instead of its text. */
  const ResponseAsText := "[object Object]"

  /** The message of the error for a 404 response. */
  function NotFoundMessage(path: string): string {
    "The resource you requested was not found: \"" + path + "\""
  }

  /** The format of an unsuccessful response: `undefined` when sniffing throws, whether for an
      unknown type or a missing header. */
  function QuietFormat(contentType: Option<string>): (r: Option<Format>)
    ensures r.Some? <==> contentType.Some? && SniffFormat(contentType.value).Ok?
    ensures r.Some? ==> r.value == SniffFormat(contentType.value).value
  {
    if contentType.None? then None
    else
      match SniffFormat(contentType.value)
      case Ok(f) => Some(f)
      case Err(_) => None
  }

  /** The OperationOutcome check for a sniffed format. The JSON detector reads the parsed body
      and may itself throw a TypeError (`Err`); the XML detector is handed the response object,
      so it parses "[object Object]" whatever the body says. */
  function OutcomeCheck(response: Response, parse: string -> Elem): Result<Option<Thrown>, string> {
    match QuietFormat(response.contentType)
    case Some(Json) => JsonExtract.OpOutcomeFromJsonResponse(response.data)
    case Some(Xml) => Ok(XmlExtract.XmlOpOutcome(parse(ResponseAsText)))
    case None => Ok(None)
  }

  /** The status-based error: the not-found message for a 404, else the status text, or the
      status number when the text is empty. */
  function StatusError(response: Response, path: string): (r: Thrown)
    ensures r.Error?
    ensures response.status == 404 ==> r.message == NotFoundMessage(path)
    ensures response.status != 404 && response.statusText != "" ==> r.message == response.statusText
    ensures response.status != 404 && response.statusText == "" ==> r.message == IntToString(response.status)
  {
    if response.status == 404 then Error(NotFoundMessage(path))
    else Error(if response.statusText != "" then response.statusText else IntToString(response.status))
  }

  /** handleUnsuccessfulResponse: what it throws. An OperationOutcome error (or the TypeError of
      looking for one) takes precedence over every status-based error. */
  function UnsuccessfulResponseError(response: Response, path: string, parse: string -> Elem): (r: Thrown)
    ensures OutcomeCheck(response, parse).Err? ==> r == TypeError(OutcomeCheck(response, parse).error)
    ensures OutcomeCheck(response, parse).Ok? && OutcomeCheck(response, parse).value.Some? ==>
      r == OutcomeCheck(response, parse).value.value && r.OpOutcome?
    ensures OutcomeCheck(response, parse) == Ok(None) ==> r == StatusError(response, path)
  {
    match OutcomeCheck(response, parse)
    case Err(m) => TypeError(m)
    case Ok(Some(e)) =>
      assert e.OpOutcome? by {
        if QuietFormat(response.contentType) == Some(Xml) {
          assert Some(e) == XmlExtract.XmlOpOutcome(parse(ResponseAsText));
        }
      }
      e
    case Ok(None) => StatusError(response, path)
  }

  /** How the request came back: a successful response, an HTTP error response, or a failure
      without a response (network, configuration). */
  datatype Fetch = Received(response: Response) | Rejected(response: Response) | Failed(error: Thrown)

  /** What a successful getResource yields. */
  datatype Loaded = Loaded(resource: JsVal, raw: string, format: Format)

  /** getResource: the body, its text and its format for a successful response. A failure
      without a response, including a success whose format cannot be sniffed, is rethrown
      unchanged; an error response goes through handleUnsuccessfulResponse. */
  function GetResource(fetch: Fetch, path: string, parse: string -> Elem): (r: Result<Loaded, Thrown>)
    ensures fetch.Failed? ==> r == Err(fetch.error)
    ensures fetch.Rejected? ==> r == Err(UnsuccessfulResponseError(fetch.response, path, parse))
    ensures fetch.Received? ==> (r.Ok? <==> QuietFormat(fetch.response.contentType).Some?)
    ensures fetch.Received? && r.Ok? ==>
      r.value == Loaded(fetch.response.data, fetch.response.responseText, QuietFormat(fetch.response.contentType).value)
    ensures fetch.Received? && r.Err? && fetch.response.contentType.Some? ==> r.error == Error(SniffFailure)
  {
    match fetch
    case Failed(e) => Err(e)
    case Rejected(response) => Err(UnsuccessfulResponseError(response, path, parse))
    case Received(response) =>
      if response.contentType.None? then Err(TypeError(ReadFault(None, "match")))
      else
        match SniffFormat(response.contentType.value)
        case Ok(f) => Ok(Loaded(response.data, response.responseText, f))
        case Err(m) => Err(Error(m))
  }

  /** The component's `status`: unset before the first update. */
  datatype Status = Unset | Loading | LoadedStatus | ErrorStatus

  /** The state of a RemoteFhirResource component. Errors handed to an `onError` callback are
      kept in `delegated`, in order. */
  class RemoteFhirResource {
    var status: Status
    var error: Option<Thrown>
    var loaded: Option<Loaded>
    var delegated: seq<Thrown>
    const hasOnError: bool

    /** The constructor: an empty state. */
    constructor(hasOnError: bool)
      ensures this.hasOnError == hasOnError
      ensures status == Unset && error.None? && loaded.None? && delegated == []
    {
      this.hasOnError := hasOnError;
      status := Unset;
      error := None;
      loaded := None;
      delegated := [];
    }

    /** handleError: pass the error to onError when there is one, else record it and show the
        error status. */
    method HandleError(e: Thrown)
      modifies this
      ensures hasOnError ==> delegated == old(delegated) + [e] && status == old(status) && error == old(error)
      ensures !hasOnError ==> delegated == old(delegated) && status == ErrorStatus && error == Some(e)
      ensures loaded == old(loaded)
    {
      if hasOnError {
        delegated := delegated + [e];
      } else {
        error := Some(e);
        status := ErrorStatus;
      }
    }

    /** updateResource: the loading status, then either the loaded resource merged into the
        state with the loaded status, or the error path. A merge leaves an earlier error in
        place. */
    method UpdateResource(fetch: Fetch, path: string, parse: string -> Elem)
      modifies this
      ensures GetResource(fetch, path, parse).Ok? ==>
        status == LoadedStatus && loaded == Some(GetResource(fetch, path, parse).value) &&
        error == old(error) && delegated == old(delegated)
      ensures GetResource(fetch, path, parse).Err? && hasOnError ==>
        status == Loading && delegated == old(delegated) + [GetResource(fetch, path, parse).error] &&
        error == old(error) && loaded == old(loaded)
      ensures GetResource(fetch, path, parse).Err? && !hasOnError ==>
        status == ErrorStatus && error == Some(GetResource(fetch, path, parse).error) &&
        delegated == old(delegated) && loaded == old(loaded)
    {
      status := Loading;
      var result := GetResource(fetch, path, parse);
      if result.Ok? {
        loaded := Some(result.value);
        status := LoadedStatus;
      } else {
        HandleError(result.error);
      }
    }
  }

  // ---------------------------------------------------------------------------------------
  // Properties of the classification
  // ---------------------------------------------------------------------------------------

  /** A JSON OperationOutcome with issues is thrown in preference to the not-found error, even
      on a 404. */
  lemma OutcomeBeatsNotFound(response: Response, path: string, parse: string -> Elem, props: map<string, JValue>, items: seq<JValue>)
    requires QuietFormat(response.contentType) == Some(Json)
    requires response.data == Some(JObj(props))
    requires "resourceType" in props && props["resourceType"] == JStr("OperationOutcome")
    requires "issue" in props && props["issue"] == JArr(items) && items != []
    ensures UnsuccessfulResponseError(response, path, parse).OpOutcome?
    ensures UnsuccessfulResponseError(response, path, parse) ==
      NewOpOutcomeError(Pick(Some(items[0]), JsonExtract.IssueKeys))
  {
  }

  /** When the content type cannot be sniffed no OperationOutcome check is made: the error is
      the status-based one whatever the body holds. */
  lemma UnsniffableUsesStatus(response: Response, path: string, parse: string -> Elem)
    requires QuietFormat(response.contentType).None?
    ensures UnsuccessfulResponseError(response, path, parse) == StatusError(response, path)
  {
  }

  /** The XML OperationOutcome check never sees the body: two XML error responses that differ
      only in their body are reported alike. */
  lemma XmlCheckIgnoresBody(a: Response, b: Response, path: string, parse: string -> Elem)
    requires QuietFormat(a.contentType) == Some(Xml)
    requires b == a.(data := b.data, responseText := b.responseText)
    ensures UnsuccessfulResponseError(a, path, parse) == UnsuccessfulResponseError(b, path, parse)
  {
  }

  /** A non-404 failure with an empty status text is reported by its status number. */
  lemma StatusNumberFallback(response: Response, path: string, parse: string -> Elem)
    requires OutcomeCheck(response, parse) == Ok(None)
    requires response.status != 404 && response.statusText == "" && response.status >= 0
    ensures UnsuccessfulResponseError(response, path, parse) == Error(NatToString(response.status))
  {
  }
}
