# FHIR resource viewer: a verified model of its resource logic

The viewer fetches a FHIR resource from a server and sniffs its wire format (JSON or XML)
from the Content-Type header. It extracts a metadata record from the resource: title, URL,
version, publisher, status, an OID from the identifiers, the narrative, the ValueSet URI, an
expansion and a bundle. It renders a ValueSet expansion as a table of codes. It turns
unsuccessful responses into errors, preferring an OperationOutcome over the HTTP status. A
configurable router rewrites the browser location and records which routes fired, so the
page can show their messages.

The model covers the parts of the program that compute something:

- `rest_api.dfy`, `paths.dfy` and `uri_encoding.dfy`: the path builders, format sniffing and
  narrative link translation. `encodeURIComponent` follows section 15.1.3.4 of ECMA-262,
  5.1 edition, and is proved to decode back.
- `common.dfy` (module `Query`): the OID pattern and the query-string helpers. Every
  regular expression is written out as an explicit leftmost-match scanner.
- `json.dfy`, `json_parsing.dfy`, `xml.dfy`, `xml_parsing.dfy` and `xml_tree.dfy`: the two
  revisions of each metadata extractor, plus the code, entry and OperationOutcome readers.
  Parsed JSON is a `JValue` with JavaScript truthiness. Parsed XML is an element tree on
  which the CSS selectors are defined.
- `error_types.dfy`: the `OpOutcomeError` message choice.
- `path_routes.dfy`: the router, as methods with loops, proved against fold functions.
- `remote.dfy` and `fhir_resource.dfy`: the two components that fetch. Each is a class whose
  methods update its state.
- `value_set_expansion.dfy`: the expansion table's columns and cells.

Thrown exceptions are `Result`/`Option` values, or the `ErrorTypes.Thrown` datatype, and
carry the exact messages. `undefined` is `None` and JSON `null` is `JNull`.

These browser functions enter as function parameters and are left uninterpreted:

- `JSON.parse`
- `DOMParser.parseFromString`
- `XMLSerializer.serializeToString`
- the route-pattern test `matchesPath`

The revision of `src/fhir/common.js` cited here defines only the OID pattern and the
`_format` helpers. The named-parameter helpers that `src/pathRoutes.js` imports from it are
modelled from the expectations in `src/fhir/common.test.js`:

- `containsParam` and `removeParam`: the `_format` pattern with the parameter name in place
  of `_format`.
- `getParam`: the value of the leftmost occurrence.
- `addParam` and `addPathSuffix`: as the tests show.

## Model

| member | source | states |
|---|---|---|
| RestApi.ParseInt | src/fhir/restApi.js:9 | `parseInt(s, 10)` yields a number exactly when a decimal digit follows the leading white space and at most one sign; otherwise NaN |
| RestApi.ParseIntOfDigits | src/fhir/restApi.js:9 | a plain run of digits parses to its decimal value |
| RestApi.ExpansionParam | src/fhir/restApi.js:9-10 | the ValueSet is named by `url` exactly when the major version is at least 3, and by `identifier` otherwise, NaN included |
| RestApi.MajorVersionOfRelease | src/fhir/restApi.js:9-10 | for a release "M.rest" with decimal M, the major version is M, and `url` is used iff M >= 3 |
| RestApi.ExpansionParamStu3 | src/fhir/restApi.js:10 | release 3.0.1 uses `url` |
| RestApi.ExpansionParamDstu2 | src/fhir/restApi.js:10 | release 1.0.2 uses `identifier` |
| RestApi.ValueSetExpansionPath | src/fhir/restApi.js:1-13 | null iff the URI is falsy. Otherwise the $expand path under the prefix, naming the ValueSet by the release's parameter with the percent-encoded URI, then `_count=100`. The encoded URI decodes back to the original and contains no "&" or "#" |
| RestApi.EncodedSepFree | src/fhir/restApi.js:11 | an encoded URI holds no "?", "&" or "=", so it survives as one query value |
| RestApi.ExpansionQueryReadBack | src/fhir/restApi.js:1-13 | read back with `getParam`, the built query yields the encoded URI under the release's parameter, which decodes to the URI, and 100 under `_count` |
| RestApi.CodeSystemSearchPath | src/fhir/restApi.js:15-20 | the prefix, then "/CodeSystem?url=", then the URI verbatim (lengths add up, prefix and suffix recovered) |
| RestApi.SearchQueryReadBack | src/fhir/restApi.js:15-20 | a URI free of "?" and "&" reads back from the search path's `url` parameter |
| RestApi.LookupPath | src/fhir/restApi.js:22-29 | parameters in the order system, version, code; the version appears iff it is a non-empty string |
| RestApi.LookupQueryReadBack | src/fhir/restApi.js:22-29 | read back with `getParam`, the lookup query yields the system and the code; `version` occurs iff the version is a non-empty string, and then yields it |
| RestApi.SniffFormat | src/fhir/restApi.js:31-56 | json iff a JSON media type occurs. Otherwise xml iff an XML media type occurs. Otherwise an error whose message is the sniff failure text |
| RestApi.SniffJsonHeader | src/fhir/restApi.js:36-41 | any header containing one of the JSON media types, with any text around it, sniffs as json |
| RestApi.SniffXmlHeader | src/fhir/restApi.js:47-52 | a header containing an XML media type always sniffs; it sniffs as xml unless a JSON type also occurs |
| RestApi.SniffEmptyHeader | src/fhir/restApi.js:53-55 | an empty header cannot be sniffed |
| RestApi.TranslateHref | src/fhir/restApi.js:58-75 | "" stays ""; absolute, protocol-relative and fragment hrefs are unchanged; a root-relative href gets the server's protocol and host name in front, as written; any other href gets the server URL and "/" |
| RestApi.TranslateHrefIntended | src/fhir/restApi.js:67-69 | the corrected root-relative branch puts "//" between protocol and host; every other branch is unchanged |
| RestApi.IntendedRootRelativeIsAbsolute | src/fhir/restApi.js:67-69 | the corrected translation of a root-relative href is an absolute link for every lower-case scheme |
| RestApi.AsWrittenRootRelativeNotAbsolute | src/fhir/restApi.js:67-69 | as written, a root-relative href becomes "scheme:host/path", which is never an absolute link |
| RestApi.RootRelativeHrefExample | src/Narrative.test.js:36-43 | "/some/thing" against "http://hl7.org/fhir/STU3" gives "http:hl7.org/some/thing" as written, and the expected "http://hl7.org/some/thing" when corrected |
| LegacyPaths.ValueSetExpansionPath | src/fhir/paths.js:1-9 | null iff the URI is falsy; otherwise the $expand path with no prefix and no `_count`, naming the ValueSet by the release's parameter with the percent-encoded URI, which decodes back and holds no "&" or "#" |
| LegacyPaths.ExpansionQueryReadBack | src/fhir/paths.js:1-9 | the release's parameter reads back as the encoded URI, which decodes to the URI |
| LegacyPaths.CodeSystemSearchPath | src/fhir/paths.js:11-13 | "/CodeSystem?url=" followed by the URI verbatim |
| LegacyPaths.SearchQueryReadBack | src/fhir/paths.js:11-13 | a URI free of "?" and "&" reads back from the `url` parameter |
| LegacyPaths.LookupPath | src/fhir/paths.js:15-18 | the version is passed by position; the order is system, version, code; the version is dropped when falsy |
| LegacyPaths.LookupQueryReadBack | src/fhir/paths.js:15-18 | system and code read back from the lookup query; `version` occurs iff the version is a non-empty string, and then reads back |
| LegacyPaths.ExpansionPathRevisions | src/fhir/restApi.js:12 | with no prefix, the current $expand path is the older one with "&_count=100" appended, and both are null together |
| LegacyPaths.SearchAndLookupRevisions | src/fhir/paths.js:11-18 | with no prefix, both revisions build identical search and lookup paths |
| UriEncoding.Utf8 | src/fhir/restApi.js:11 | a code point becomes one to four octets |
| UriEncoding.Utf8Decodes | src/fhir/restApi.js:11 | the octets of a scalar value are a well-formed shortest-form UTF-8 sequence that decodes back to it |
| UriEncoding.EncodeUriComponent | src/fhir/restApi.js:11 | the encoding holds only unreserved characters, "%" and hexadecimal digits |
| UriEncoding.EncodedHasNoDelimiters | src/fhir/restApi.js:11 | no "&", "=", "?", "#", "/", "+" or space survives unescaped |
| UriEncoding.DecodeEncode | src/fhir/restApi.js:11 | decodeURIComponent(encodeURIComponent(s)) == s for every string |
| Text.Contains | src/fhir/restApi.js:37-39 | an unanchored literal match: true iff the substring occurs at some index |
| Text.Split | src/pathRoutes.js:94 | `split` on one character: at least one piece, and no piece holds the separator |
| Text.JoinSplit | src/pathRoutes.js:94 | joining the pieces of a split gives back the string |
| Text.SplitJoin | src/pathRoutes.js:94 | splitting a join of separator-free parts gives back the parts |
| JsValues.KeepTruthy | src/fhir/json.js:24-26 | a field copied under `if (x)` is set iff x is truthy, and then equals x |
| JsValues.Read | src/fhir/json.js:14 | reading a property throws exactly on undefined and null; otherwise it yields the property (undefined when absent) |
| JsValues.Pick | src/fhir/json.js:79 | lodash `pick` keeps exactly the listed own keys of an object, with their values, and gives {} for other values |
| JsValues.NatToString | src/RemoteFhirResource.js:78 | a status number's text is a non-empty string of decimal digits |
| Query.OidMatch | src/fhir/common.js:1 | no match iff "urn:oid:" plus a digit or dot occurs nowhere; otherwise the capture taken at the leftmost occurrence |
| Query.OidCaptureAt | src/fhir/common.js:1 | the capture is the maximal non-empty run of digits and dots after the prefix |
| Query.FirstParam | src/fhir/common.js:2 | the parameter pattern's leftmost match, or none when it matches nowhere |
| Query.ContainsParam | src/fhir/common.js:6 | true iff `name=` followed by a character other than "?" or "&" occurs somewhere |
| Query.NoFormatWithoutUnderscore | src/fhir/common.test.js:104-115 | a query without "_" never contains `_format`; this settles every falsy expectation except the one at line 108 |
| Query.NoFormatAfterLeadingUnderscore | src/fhir/common.test.js:108 | a pair whose only "_" is its first character, followed by anything but "f", never contains `_format` |
| Query.ElementsQueryHasNoFormat | src/fhir/common.test.js:108 | "?_elements=name,url&url:below=http://snomed.info" does not contain `_format` |
| Query.NoneInPairs | src/fhir/common.js:6 | a query of separator-free pairs, none holding the pattern, does not hold it either |
| Query.ContainsAppend | src/fhir/common.js:6 | text appended after a match never removes it |
| Query.Replace | src/fhir/common.js:11 | the global replacement never lengthens the query |
| Query.ReplaceShrinks | src/fhir/common.js:11 | when the parameter occurs, the replacement strictly shortens the query |
| Query.StripTrailingSep | src/fhir/common.js:10-11 | exactly one trailing "?" or "&" is removed, and nothing else |
| Query.RemoveParam | src/fhir/common.js:9-12 | removal never lengthens the query |
| Query.RemoveAbsentParam | src/fhir/common.js:9-12 | when the parameter is absent, only a trailing separator is stripped |
| Query.RemoveParamFromQuery | src/fhir/common.test.js:118-142 | on a query "?p1&p2&..." of well-formed pairs (each non-empty, free of "?" and "&", and either starting with `name=` and a value or not holding the pattern at all), exactly the pairs of the named parameter go; the rest keep their order, and "" is left when none remain |
| Query.RemoveAbsentFromPairs | src/fhir/common.js:9-12 | removing an absent parameter from a query of well-formed pairs keeps every pair |
| Query.RemoveFormatExample | src/fhir/common.test.js:131 | "?_format=html&name:contains=edu" becomes "?name:contains=edu" |
| Query.GetParam | src/pathRoutes.js:94 | none iff the parameter is absent; otherwise the non-empty, separator-free value of its leftmost occurrence |
| Query.GetParamAfter | src/pathRoutes.js:94 | a pair appended after a separator to a query lacking the parameter reads back with its value, whatever follows from the next separator on |
| Query.GetParamAppend | src/pathRoutes.js:94 | text starting with a separator, appended to a query holding the parameter, leaves its value unchanged |
| Query.AddParam | src/fhir/common.test.js:144-191 | a null value leaves the query alone. Otherwise the result is the query, "?" when empty or "&" otherwise, then `name=value`. An array value is comma-joined |
| Query.GetAddedParam | src/fhir/common.test.js:144-191 | a parameter added to a query lacking it reads back with its value |
| Query.AddKeepsParam | src/fhir/common.test.js:144-191 | adding any parameter leaves the value of a parameter already present unchanged |
| Query.RemoveAddedParam | src/fhir/common.test.js:118-191 | removing a parameter just added to a query lacking it restores the query |
| Query.AddPathSuffix | src/fhir/common.test.js:50-89 | an empty suffix leaves the path; otherwise path and suffix are joined by exactly one "/", with their surplus slashes dropped |
| ErrorTypes.IssueMessage | src/errorTypes.js:3-6 | the details' display when details and display are truthy, else the diagnostics (possibly undefined) |
| ErrorTypes.ErrorMessage | src/errorTypes.js:7 | `new Error(m).message`: "" for undefined, the string itself for a string, "null" for null |
| ErrorTypes.NewOpOutcomeError | src/errorTypes.js:1-11 | an OperationOutcome error keeping the issue unchanged, with the message chosen from it |
| ErrorTypes.XmlIssueMessage | src/errorTypes.js:3-6 | an issue of strings and nulls never has display text; its message is the diagnostics, or "" without them |
| ErrorTypes.DisplayWins | src/errorTypes.js:3-6 | a non-empty display string is the message whatever the diagnostics say |
| JsonExtract.FirstTruthy | src/fhir/json.js:12-23 | the first truthy value of a list, and unset iff none is truthy |
| JsonExtract.TitleOf | src/fhir/json.js:14-23 | a recorded title is truthy |
| JsonExtract.TitlePriority | src/fhir/json.js:12-23 | the title is the first truthy of title, name and resourceType |
| JsonExtract.OidTest | src/fhir/json.js:42 | the callback accepts exactly identifiers with system `urn:ietf:rfc:3986` whose string value contains an OID URN; it throws only for null or an accepted-system identifier whose value has no `match` |
| JsonExtract.FindFirst | src/fhir/json.js:41-43 | `find` stops at the first true outcome, all earlier ones false; the first throwing callback ends it with that error; no match iff all outcomes are false |
| JsonExtract.OidTests | src/fhir/json.js:41-43 | the callback's outcome on each identifier, index by index |
| JsonExtract.IdList | src/fhir/json.js:38-40 | an array is scanned as its items, any other value as a one-element list |
| JsonExtract.FindOidIdMeaning | src/fhir/json.js:41-43 | no identifier found iff every callback returns false. A found identifier is accepted and every one before it was rejected. An error is the first throwing callback's, reached after rejections only |
| JsonExtract.OidFromFirstMatch | src/fhir/json.js:41-44 | the first accepted identifier after rejections only is the one found |
| JsonExtract.SingleIdentifier | src/fhir/json.js:37-45 | a single identifier object is scanned like a one-element array; an OID is found iff it is accepted |
| JsonExtract.OidFromScannedIdentifier | src/fhir/json.js:37-45 | a recorded OID is the capture of an accepted identifier of the resource |
| JsonExtract.MissingValueFault | src/fhir/json.js:42 | an accepted-system identifier without a value throws reading `match` of undefined |
| JsonExtract.JsonFault | src/fhir/json.js:9-72 | extraction faults exactly on a null resource (reading `resourceType`) or on a throwing identifier test |
| JsonExtract.NarrativeOf | src/fhir/json.js:47-49 | a recorded narrative is a truthy `text.div` of a truthy `text` |
| JsonExtract.ValueSetUriOf | src/fhir/json.js:50-57 | a recorded ValueSet URI is truthy and belongs to a ValueSet or a CodeSystem |
| JsonExtract.ExpansionOf | src/fhir/json.js:59-61 | an expansion is recorded only for a ValueSet, and only when truthy |
| JsonExtract.BundleOf | src/fhir/json.js:63-65 | the resource is saved iff its type is Bundle |
| JsonExtract.DescriptiveFields | src/fhir/json.js:11-35 | resourceType, title, url, version, publisher and status (as `resourceStatus`) are each recorded only when truthy; nothing else is set |
| JsonExtract.TypedFields | src/fhir/json.js:46-65 | adds the narrative, ValueSet URI, expansion and bundle to a record whose type and url were taken from the resource, changing nothing else |
| JsonExtract.ExtractJsonFields | src/fhir/json.js:10-66 | fails exactly with the fault's TypeError message; otherwise it records every field as described |
| JsonExtract.ExtractJsonMetadata | src/fhir/json.js:9-72 | the same, with the failure rethrown as "There was a problem parsing the JSON FHIR resource" quoting the message |
| JsonExtract.TypeDependentFields | src/fhir/json.js:50-65 | expansion and bundle are never both recorded; a ValueSet URI only for ValueSets and CodeSystems; the bundle is the resource itself |
| JsonExtract.PickAll | src/fhir/json.js:78-80 | one row per item in order; each row keeps exactly the item's listed keys, with the item's values |
| JsonExtract.PickList | src/fhir/json.js:76-86 | throws on a missing container (reading the field of it) or a truthy non-array list ("expansion.contains.map is not a function", "bundle.entry.map is not a function"); a falsy list gives []; an array gives its picked items |
| JsonExtract.CodesFromJsonExpansion | src/fhir/json.js:76-81 | no `contains` gives no rows; a `contains` array gives one row per item with its code fields |
| JsonExtract.EntriesFromJsonBundle | src/fhir/json.js:83-86 | no `entry` gives no entries; an `entry` array gives one entry per item holding resource and fullUrl |
| JsonExtract.OpOutcomeFromJsonResponse | src/fhir/json.js:88-104 | null for other resource types. For an OperationOutcome, an error iff the issue list is non-empty, built from the first issue restricted to the six issue fields. It throws for missing data or a missing issue list |
| JsonParsing.EarlierDescriptiveFields | src/fhir/jsonParsing.js:5-23 | resourceType, title, url and version only when truthy; no publisher, status, OID or bundle |
| JsonParsing.EarlierTypedFields | src/fhir/jsonParsing.js:24-39 | adds narrative, ValueSet URI and expansion as the later revision does, and no bundle |
| JsonParsing.ExtractEarlierJsonMetadata | src/fhir/jsonParsing.js:3-46 | fails iff the resource is null, with the wrapped TypeError message; otherwise it records the earlier field set |
| JsonParsing.EarlierCodesFromJsonExpansion | src/fhir/jsonParsing.js:48-52 | succeeds iff `contains` is an array (no guard), giving one row per item |
| JsonParsing.EarlierIsRestriction | src/fhir/jsonParsing.js:3-46 | the earlier record is the later one without publisher, status, OID and bundle |
| JsonParsing.EarlierCodesAgree | src/fhir/jsonParsing.js:48-52 | with a `contains` array both revisions give the same rows; without one the earlier throws where the later gives [] |
| XmlTree.ValueAttr | src/fhir/xml.js:19 | `getAttribute('value')`: null iff the attribute is absent, else its string |
| XmlTree.ValueOf | src/fhir/xml.js:22 | undefined iff no element was found, else the element's value attribute |
| XmlTree.Named | src/fhir/xml.js:71 | the elements with the name, in order, and nothing else |
| XmlTree.FirstNamed | src/fhir/xml.js:84 | none iff no element has the name; else the first one that does |
| XmlTree.FirstOfNamed | src/fhir/xml.js:84 | the first match is the head of the list of all matches |
| XmlTree.SelectIsFirstOfAll | src/fhir/xml.js:71 | `querySelector(n)` is the first element of `querySelectorAll(n)` |
| XmlTree.ChildIsSelected | src/fhir/xml.js:15 | a direct child with the name is also found by a descendant search |
| XmlExtract.XmlTitleOf | src/fhir/xml.js:14-20 | the first `title` child's value attribute, else the first `name` child's, else the root's name; a present element wins even without the attribute |
| XmlExtract.XmlOidScan | src/fhir/xml.js:30-39 | throws iff the first system is `urn:ietf:rfc:3986` and the first value lacks its attribute; when that value has its attribute, the result is the OID capture of it; without that system and a value element, no OID and no fault |
| XmlExtract.XmlDescriptiveFields | src/fhir/xml.js:11-28 | the resource type, title, and the url, version, publisher and status children's values (undefined when absent) |
| XmlExtract.ExtractXmlMetadata | src/fhir/xml.js:10-65 | fails exactly when the identifier check throws; otherwise it records every field as described |
| XmlExtract.XmlIdentifierOid | src/fhir/xml.js:29-39 | the identifier block yields the OID scan: a TypeError when an accepted identifier has no value attribute, else the captured OID or nothing |
| XmlExtract.XmlTypedFields | src/fhir/xml.js:40-62 | the narrative is the serialised `text > div`, the ValueSet URI and expansion follow the resource type, a Bundle keeps itself, and the earlier fields are untouched |
| XmlExtract.ExtractRawXmlMetadata | src/fhir/xml.js:4-8 | the same on the parsed text |
| XmlExtract.FoundValues | src/fhir/xml.js:82-88 | a key iff it is listed and some descendant has that name; its value is the first such descendant's value attribute |
| XmlExtract.ExtractFound | src/fhir/xml.js:83-88 | the lookup loop fills exactly that object |
| XmlExtract.CodesFromXmlExpansion | src/fhir/xml.js:70-92 | one row per `contains` descendant in document order, each its found code fields |
| XmlExtract.EntriesFromXmlBundle | src/fhir/xml.js:94-107 | one entry per `entry` descendant in document order. The resource is the first element under a `resource`, or null. fullUrl is the value, or undefined |
| XmlExtract.XmlOpOutcome | src/fhir/xml.js:112-133 | an error is built only as an OperationOutcome error over the issue fields |
| XmlExtract.OpOutcomeFromXmlResponse | src/fhir/xml.js:109-134 | an error iff the root is an OperationOutcome with an `issue` child; it is built from that first issue's six elements |
| XmlExtract.OnlyFirstSystemChecked | src/fhir/xml.js:30-39 | when the first system names another system, no OID is recorded, whatever later identifiers hold |
| XmlExtract.XmlOidSource | src/fhir/xml.js:32-38 | a recorded OID comes from system `urn:ietf:rfc:3986` and is the OID capture of the first value |
| XmlExtract.XmlOidRecorded | src/fhir/xml.js:30-39 | when the first system is `urn:ietf:rfc:3986` and the first value element has its attribute, the recorded OID is that value's OID capture, present iff "urn:oid:" and a digit or dot occur in it |
| XmlExtract.XmlTypeDependentFields | src/fhir/xml.js:47-62 | never both an expansion and a bundle; a ValueSet URI only for ValueSets and CodeSystems; a bundle iff the type is Bundle |
| XmlExtract.XmlCodeFields | src/fhir/xml.js:74-88 | XML rows carry the same code fields as JSON rows, each present iff a descendant has that name |
| XmlExtract.XmlOpOutcomeMessage | src/fhir/xml.js:126-133 | an XML issue's error message is its diagnostics value, or "" or "null" without one |
| XmlParsing.ExtractEarlierXmlMetadata | src/fhir/xmlParsing.js:1-48 | the earlier XML record: type, title, url, version, narrative, ValueSet URI and a boolean expansion flag |
| XmlParsing.EarlierXmlIsRestriction | src/fhir/xmlParsing.js:8-40 | the earlier record agrees with the later on every field it has, and flags an expansion iff the later records one |
| PathRoutes.Record | src/pathRoutes.js:39-41 | an id is recorded only after a change, only for a route with id and message, and never twice |
| PathRoutes.RemoveListed | src/pathRoutes.js:43-55 | a removal is reported iff some listed name occurs in the search; removal never lengthens the search, and leaves it untouched when none is reported |
| PathRoutes.AddListed | src/pathRoutes.js:56-72 | an addition is reported iff some listed name is absent from the search; the search only grows at its end, and is untouched when none is reported |
| PathRoutes.KeptAll | src/pathRoutes.js:43-51 | the pairs left after removing every listed name come from the query and none starts with a listed name |
| PathRoutes.RemoveListedFromPairs | src/pathRoutes.js:43-51 | on a query of well-formed pairs, the removal loop leaves exactly the pairs of no listed name, in order, and no listed name occurs afterwards |
| PathRoutes.AddListedKeeps | src/pathRoutes.js:56-68 | a parameter present before the additions keeps its value |
| PathRoutes.AddListedContains | src/pathRoutes.js:56-68 | with non-null, separator-free values, every listed name occurs after the additions |
| PathRoutes.AddListedValue | src/pathRoutes.js:56-68 | a listed name absent at its turn reads back with its own value at the end |
| PathRoutes.Finish | src/pathRoutes.js:75-78 | `_rIds` with the recorded ids is appended iff some id was recorded |
| PathRoutes.ProcessPathRoutes | src/pathRoutes.js:17-81 | without a configuration the location is returned; otherwise the routes applied in order, then the `_rIds` step |
| PathRoutes.ProcessRoute | src/pathRoutes.js:25-72 | the loop body changes the pathname, search and recorded ids exactly as applying that one route does |
| PathRoutes.RemoveParams | src/pathRoutes.js:43-51 | the removal loop yields the search with each listed name removed when present at its turn, and whether any was |
| PathRoutes.AddParams | src/pathRoutes.js:56-68 | the addition loop yields the search with each absent parameter appended at its turn, and whether any was |
| PathRoutes.MessageById | src/pathRoutes.js:83-90 | null iff no route has that truthy id; otherwise the message of the first route that does |
| PathRoutes.GetMessageById | src/pathRoutes.js:83-90 | the loop returns that message |
| PathRoutes.Messages | src/pathRoutes.js:97-102 | at most one message per id, and only truthy messages |
| PathRoutes.RouteMessages | src/pathRoutes.js:92-107 | null iff the search has no `_rIds` |
| PathRoutes.GetRouteMessages | src/pathRoutes.js:92-107 | the loop yields those messages |
| PathRoutes.LookUpMessages | src/pathRoutes.js:95-103 | the loop keeps, in order, the truthy message of every listed id |
| PathRoutes.RecordedIds | src/pathRoutes.js:39-71 | applying routes keeps the recorded ids distinct, each from a route having both id and message |
| PathRoutes.RouteKeepsIds | src/pathRoutes.js:33-72 | one route keeps the recorded ids distinct and drawn from routes having both id and message |
| PathRoutes.ConfigRecordedIds | src/pathRoutes.js:23-74 | a whole configuration records distinct ids of its own routes |
| PathRoutes.UnmatchedRoutes | src/pathRoutes.js:33 | routes whose pattern does not match change nothing |
| PathRoutes.PathOnlyBySuffix | src/pathRoutes.js:34-38 | without suffixes the pathname is never touched |
| PathRoutes.SearchOnlyAppended | src/pathRoutes.js:56-72 | without removals the original search stays a prefix |
| PathRoutes.SilentRoutes | src/pathRoutes.js:75-77 | routes lacking id or message never cause `_rIds` to be added |
| PathRoutes.ListedValue | src/pathRoutes.js:76 | comma-joined listable ids form a non-empty separator-free value |
| PathRoutes.RecordedMessages | src/pathRoutes.js:92-104 | the `_rIds` the router appends reads back, through getRouteMessages, as the messages of the recorded ids |
| PathRoutes.AllRecordedMessages | src/pathRoutes.js:97-102 | with unique configured ids, every recorded id yields a message |
| PathRoutes.NullParamRecords | src/pathRoutes.js:56-71 | a null value to add leaves the search unchanged but still records the route's id |
| RemoteResource.QuietFormat | src/RemoteFhirResource.js:62-65 | undefined iff the header is absent or unsniffable; otherwise the sniffed format |
| RemoteResource.StatusError | src/RemoteFhirResource.js:73-79 | the not-found message for 404, else the status text, else the status number |
| RemoteResource.UnsuccessfulResponseError | src/RemoteFhirResource.js:61-80 | an OperationOutcome error (or the detector's TypeError) takes precedence over the status-based error |
| RemoteResource.GetResource | src/RemoteFhirResource.js:41-59 | failures without a response are rethrown as they are. Responses with an error status get the classified error. A successful response loads iff its format sniffs, else the sniff error is thrown |
| RemoteResource.RemoteFhirResource.constructor | src/RemoteFhirResource.js:24-29 | an empty state |
| RemoteResource.RemoteFhirResource.HandleError | src/RemoteFhirResource.js:88-94 | the error goes to onError when there is one; otherwise it is recorded with status error |
| RemoteResource.RemoteFhirResource.UpdateResource | src/RemoteFhirResource.js:31-39 | loaded with the resource, raw text and format; or the error path of HandleError |
| RemoteResource.OutcomeBeatsNotFound | src/RemoteFhirResource.js:66-76 | a JSON OperationOutcome with issues is thrown even for a 404 |
| RemoteResource.UnsniffableUsesStatus | src/RemoteFhirResource.js:62-65 | an unsniffable content type skips the OperationOutcome check |
| RemoteResource.XmlCheckIgnoresBody | src/RemoteFhirResource.js:69-71 | the XML check never sees the body: two XML responses differing only in body get the same error |
| RemoteResource.StatusNumberFallback | src/RemoteFhirResource.js:77-79 | an empty status text gives the decimal status number |
| FhirResourceView.ViewSniffFormat | src/FhirResource.js:118-135 | json, xml or null, agreeing with the REST helper's sniffer and null exactly where it throws |
| FhirResourceView.SniffersAgree | src/FhirResource.js:118-135 | the component's sniffer never throws and agrees with the REST helper on every header it accepts |
| FhirResourceView.ExtractViewJsonMetadata | src/FhirResource.js:149-161 | parse errors and a null resource become the wrapped JSON problem. Otherwise title (title over name), url, version and narrative are recorded when truthy |
| FhirResourceView.NoResourceTypeFallback | src/FhirResource.js:153-155 | without a truthy title or name, no title is recorded |
| FhirResourceView.ExtractViewXmlMetadata | src/FhirResource.js:163-186 | the first title, else the first name anywhere in the document; url, version and narrative from the first matching elements |
| FhirResourceView.ExtractionFailure | src/FhirResource.js:137-161 | XML never fails; no format fails with "Unsupported content type."; JSON fails exactly on a parse error or a null resource |
| FhirResourceView.ExtractMetadata | src/FhirResource.js:137-147 | dispatch on the format; it fails exactly when extraction has a failure, with that error, and an unknown format is rejected with "Unsupported content type." |
| FhirResourceView.ViewStatusMessage | src/FhirResource.js:46-52 | the not-found message for 404, else the status text (no fallback) |
| FhirResourceView.DocumentTitle | src/FhirResource.js:65-67 | "title (version)" when the version is truthy, else the title |
| FhirResourceView.EarlyFailure | src/FhirResource.js:25-28 | a failed fetch, an unsuccessful response or a missing Content-Type header stops the load before extraction |
| FhirResourceView.FhirResource.constructor | src/FhirResource.js:11-19 | status loading, the narrative tab, nothing loaded |
| FhirResourceView.FhirResource.SetActiveTab | src/FhirResource.js:37-39 | only the active tab changes |
| FhirResourceView.FhirResource.HandleError | src/FhirResource.js:41-44 | the error is recorded with status error; nothing else changes |
| FhirResourceView.FhirResource.GetResource | src/FhirResource.js:21-35 | a response passing the early checks loads iff extraction succeeds; every failure ends in status error with a wrapped server-problem error, leaving the metadata as it was; a load keeps raw text, format and the extracted metadata |
| FhirResourceView.FhirResource.UpdateDocumentTitle | src/FhirResource.js:61-69 | the document title is rewritten iff title or version changed |
| ValueSetExpansionView.AllKeys | src/ValueSetExpansion.js:62-64 | a key is collected iff some row has it |
| ValueSetExpansionView.Whitelisted | src/ValueSetExpansion.js:66-69 | a name is kept iff it is listed and collected; never more names than listed |
| ValueSetExpansionView.Columns | src/ValueSetExpansion.js:60-69 | a column appears iff it is a code field some row has, in the preferred order |
| ValueSetExpansionView.SystemCell | src/ValueSetExpansion.js:81-87 | a system cell iff the system is truthy |
| ValueSetExpansionView.DestructuredOptions | src/fhir/restApi.js:22-25 | `{ version = null, pathPrefix = '' }` applied to the third argument: defaults for anything but an object; an object's truthy version and its path prefix when present |
| ValueSetExpansionView.CodeCellAsWritten | src/ValueSetExpansion.js:88-100 | a code cell iff the code is truthy; a link iff the system is truthy too |
| ValueSetExpansionView.NonObjectVersionIgnored | src/ValueSetExpansion.js:88-100 | a version of any non-object type leaves the link unversioned and unprefixed |
| ValueSetExpansionView.ObjectVersionDestructured | src/ValueSetExpansion.js:90-91 | a version object {version: "2", pathPrefix: "/p"} gives the link "/p/CodeSystem/$lookup?system=s&version=2&code=c" |
| ValueSetExpansionView.CodeCell | src/ValueSetExpansion.js:88-100 | a code cell iff the code is truthy; a link iff the system is truthy too |
| ValueSetExpansionView.PlainCell | src/ValueSetExpansion.js:101-120 | a plain cell iff the field is truthy |
| ValueSetExpansionView.Render | src/ValueSetExpansion.js:57-122 | an empty container without codes; otherwise the derived columns and one cell list per code, in order, with the code cell as written |
| ValueSetExpansionView.CellCount | src/ValueSetExpansion.js:79-121 | a row has exactly one cell per code field with a truthy value |
| ValueSetExpansionView.CellsWithinColumns | src/ValueSetExpansion.js:79-121 | no row has more cells than the header has columns |
| ValueSetExpansionView.MissingFieldFewerCells | src/ValueSetExpansion.js:79-121 | cells are not padded: a row missing a shown field has fewer cells than the header has columns |
| ValueSetExpansionView.AsWrittenDropsVersion | src/ValueSetExpansion.js:90-91 | as written, the lookup link of a code with a version string carries no version |
| ValueSetExpansionView.CorrectedKeepsVersion | src/ValueSetExpansion.js:90-91 | corrected, the link carries "&version=" between system and code |
| ValueSetExpansionView.CorrectionOnlyTouchesVersionedLinks | src/ValueSetExpansion.js:88-100 | a row lacking a truthy code, system or version renders the same as written and corrected |
| ValueSetExpansionView.CorrectedCellCount | src/ValueSetExpansion.js:79-121 | the correction changes no cell count: one cell per truthy code field either way |

## Left out

- HTTP transport (axios and `fetch`) is not modelled. Its outcomes are inputs: `Fetch` and
  `ViewFetch` values.
- `JSON.parse`, `DOMParser`, `XMLSerializer` and the route patterns of `matchesPath` are
  uninterpreted function parameters. Parse errors of `JSON.parse` come back as `Err`.
  The XML parser is total, so the XML extractors' parse-error `catch` is never taken.
- React rendering is not modelled: markup, lifecycle scheduling, and `setState` merging versus
  replacing. React draws boolean cell contents (`abstract`, `inactive`) as nothing; the model
  keeps the value.
- `extractCodes` in `src/ValueSetExpansion.js` is not modelled. It imports
  `extractCodesFromJSONExpansion` from `src/fhir/json.js`, which exports only
  `extractCodesFromJsonExpansion`, and it sets state asynchronously. The table is modelled
  from whatever codes it holds.
- `resetRouteMessages` writes `window.history` and `document`, and is not modelled.
- Console logging and `Error.captureStackTrace` are not modelled.
- JavaScript object key order is not modelled. Route `addParams` are a sequence of pairs in
  iteration order. Extracted rows are maps.
- JSON numbers are integers. Floating point and the string forms of non-integral numbers are
  not modelled.
- RemoteResource.RemoteFhirResource.UpdateResource: the resource fields are kept as one
  `loaded` value rather than spread into the state object.
- RestApi.TranslateHref: the root-relative branch takes the protocol and host name that
  `new URL(fhirServer)` would report as a parameter. URL parsing, and the "." and ".."
  resolution the narrative tests expect, are not modelled.
- ValueSetExpansionView.CodeCell: the version option is `String(version)`, so a truthy
  non-string version whose string form is empty (an empty array) omits the parameter.
- RestApi.LookupQueryReadBack, LegacyPaths.LookupQueryReadBack, RestApi.SearchQueryReadBack and
  LegacyPaths.SearchQueryReadBack: the system, code, version and CodeSystem URI are
  interpolated unencoded, so these read-backs are proved only for values free of "?" and "&"
  and for earlier values that do not themselves hold a later parameter's `name=` pattern;
  `getParam` takes the leftmost match, so other values read back wrongly.
- PathRoutes.RemoveListedFromPairs: the guarantee holds only for queries of well-formed
  pairs. The pattern is unanchored: with names ["ab", "x"], "?ax=1&b=2" loses "x=1&" and
  becomes "?ab=2", which holds the earlier name "ab" again.
- PathRoutes.AddListedContains: proved for non-null, non-empty, separator-free values; a null
  value adds nothing, and a value holding "&" is split by later reads.
- UriEncoding.EncodeUriComponent: strings are sequences of Unicode scalar values, so a lone
  surrogate, on which `encodeURIComponent` throws `URIError`, cannot be written down, and
  lengths and indices count code points rather than UTF-16 code units.
- PathRoutes.MessageById: a route's missing id or message is the empty string, so a route
  with an id but no message gives "" where `getMessageById` returns undefined. Both are falsy,
  and `getRouteMessages` keeps only truthy messages.
- ValueSetExpansionView.CodeCellAsWritten: an object version is destructured, and its
  `version` member enters the link when truthy. A truthy member whose string form is empty,
  such as an empty array, is dropped rather than giving an empty `version=`.
- Route ids are strings. A numeric `id` in a route configuration is not modelled; `===`
  against the split `_rIds` text would never match it.
- Narrative and raw views, XSLT pretty-printing, the proxy servers and the configuration
  bootstrap are not part of this model.

## Findings

| source | as written | input that shows it | evidently intended | confidence | as-written member | corrected member |
|---|---|---|---|---|---|---|
| src/fhir/restApi.js:67-69 | a root-relative href becomes `protocol + hostname + href`, and the protocol ends in ":" with no "//" | href "/some/thing" with server "http://hl7.org/fhir/STU3" gives "http:hl7.org/some/thing" | "http://hl7.org/some/thing", as src/Narrative.test.js:36-43 expects | high, not executed | RestApi.AsWrittenRootRelativeNotAbsolute | RestApi.IntendedRootRelativeIsAbsolute |
| src/ValueSetExpansion.js:90-91 | `lookupPath(code.system, code.code, code.version)` passes the version string where `lookupPath` destructures an options object, so `version` takes its default null | a code with system "http://snomed.info/sct", code "123" and version "2018" links to "/CodeSystem/$lookup?system=http://snomed.info/sct&code=123" | the link carries "&version=2018", i.e. `lookupPath(system, code, { version })` | high, not executed | ValueSetExpansionView.AsWrittenDropsVersion | ValueSetExpansionView.CorrectedKeepsVersion |
