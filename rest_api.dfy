/** Path building, wire-format sniffing and narrative link translation
    (src/fhir/restApi.js). */
module RestApi {
  import opened Wrappers
  import Text
  import opened UriEncoding
  import Query

  /** The two wire formats of a FHIR resource. */
  datatype Format = Json | Xml

  // ---- parseInt(fhirVersion.split('.')[0], 10) ----

  /** StrWhiteSpaceChar of ECMA-262: the white space and line terminators parseInt skips. */
  predicate IsJsWhiteSpace(c: char) {
    c in {'\t', '\U{000B}', '\U{000C}', ' ', '\U{00A0}', '\U{FEFF}', '\n', '\r', '\U{2028}', '\U{2029}',
          '\U{1680}', '\U{202F}', '\U{205F}', '\U{3000}'}
    || ('\U{2000}' <= c <= '\U{200A}')
  }

  function TrimStart(s: string): (r: string)
    ensures r <= s || (|r| <= |s| && r == s[|s| - |r|..])
    ensures r == [] || !IsJsWhiteSpace(r[0])
  {
    if s != [] && IsJsWhiteSpace(s[0]) then TrimStart(s[1..]) else s
  }

  predicate IsDigit(c: char) {
    '0' <= c <= '9'
  }

  /** Length of the run of decimal digits at the start of s. */
  function DigitRun(s: string): (n: nat)
    ensures n <= |s|
    ensures forall i :: 0 <= i < n ==> IsDigit(s[i])
    ensures n == |s| || !IsDigit(s[n])
  {
    if s != [] && IsDigit(s[0]) then 1 + DigitRun(s[1..]) else 0
  }

  function DigitsValue(ds: string): nat
    requires forall i :: 0 <= i < |ds| ==> IsDigit(ds[i])
  {
    if ds == [] then 0
    else
      assert IsDigit(ds[|ds| - 1]);
      10 * DigitsValue(ds[..|ds| - 1]) + (ds[|ds| - 1] as int - '0' as int)
  }

  /** parseInt(s, 10); None is NaN. */
  function ParseInt(s: string): (r: Option<int>)
    ensures r.Some? <==> (var t := TrimStart(s);
                          var u := if t != [] && t[0] in {'+', '-'} then t[1..] else t;
                          u != [] && IsDigit(u[0]))
  {
    var t := TrimStart(s);
    var negative := t != [] && t[0] == '-';
    var u := if t != [] && t[0] in {'+', '-'} then t[1..] else t;
    var n := DigitRun(u);
    if n == 0 then None
    else
      var v: int := DigitsValue(u[..n]);
      Some(if negative then -v else v)
  }

  /** The major FHIR version: the integer before the first "." (None is NaN). */
  function MajorVersion(fhirVersion: string): Option<int> {
    ParseInt(Text.Split(fhirVersion, '.')[0])
  }

  /** `fhirMajorVersion >= 3`; NaN compares false. */
  predicate UsesUrlParam(fhirVersion: string) {
    var m := MajorVersion(fhirVersion);
    m.Some? && m.value >= 3
  }

  /** The query parameter that names the ValueSet in an $expand request. */
  function ExpansionParam(fhirVersion: string): (p: string)
    ensures p == "url" <==> UsesUrlParam(fhirVersion)
    ensures p == "identifier" <==> !UsesUrlParam(fhirVersion)
  {
    if UsesUrlParam(fhirVersion) then "url" else "identifier"
  }

  predicate PresentString(s: Option<string>) {
    s.Some? && s.value != ""
  }

  /** The $expand path for a ValueSet URI, or null when the URI is falsy. The URI
      travels percent-encoded and decodes back to itself. */
  function ValueSetExpansionPath(valueSetUri: Option<string>, fhirVersion: string, pathPrefix: string): (r: Option<string>)
    ensures r.Some? <==> PresentString(valueSetUri)
    ensures r.Some? ==>
      r.value == pathPrefix + "/ValueSet/$expand?" + ExpansionParam(fhirVersion) + "=" +
        EncodeUriComponent(valueSetUri.value) + "&_count=100"
    ensures r.Some? ==> exists e ::
      && r.value == pathPrefix + "/ValueSet/$expand?" + ExpansionParam(fhirVersion) + "=" + e + "&_count=100"
      && DecodeUriComponent(e) == Some(valueSetUri.value)
      && '&' !in e && '#' !in e
  {
    if !PresentString(valueSetUri) then None
    else
      var e := EncodeUriComponent(valueSetUri.value);
      DecodeEncode(valueSetUri.value);
      EncodedHasNoDelimiters(valueSetUri.value);
      Some(pathPrefix + "/ValueSet/$expand?" + ExpansionParam(fhirVersion) + "=" + e + "&_count=100")
  }

  /** The CodeSystem search path; the URI is inserted as it is, without encoding. */
  function CodeSystemSearchPath(codeSystemUri: string, pathPrefix: string): (r: string)
    ensures |r| == |pathPrefix| + 16 + |codeSystemUri|
    ensures r[..|pathPrefix|] == pathPrefix
    ensures r[|pathPrefix|..|pathPrefix| + 16] == "/CodeSystem?url="
    ensures r[|r| - |codeSystemUri|..] == codeSystemUri
  {
    pathPrefix + "/CodeSystem?url=" + codeSystemUri
  }

  /** The options object of lookupPath: `version` defaults to null, `pathPrefix` to "". */
  datatype LookupOptions = LookupOptions(version: Option<string>, pathPrefix: string)

  const DefaultLookupOptions := LookupOptions(None, "")

  /** The $lookup path; the parameters come in the order system, version, code, and
      version only when it is truthy. */
  function LookupPath(system: string, code: string, options: LookupOptions): (r: string)
    ensures PresentString(options.version) ==>
      r == options.pathPrefix + "/CodeSystem/$lookup?system=" + system + "&version=" + options.version.value + "&code=" + code
    ensures !PresentString(options.version) ==>
      r == options.pathPrefix + "/CodeSystem/$lookup?system=" + system + "&code=" + code
  {
    if PresentString(options.version) then
      options.pathPrefix + "/CodeSystem/$lookup?system=" + system + "&version=" + options.version.value + "&code=" + code
    else
      options.pathPrefix + "/CodeSystem/$lookup?system=" + system + "&code=" + code
  }

  // ---- the query strings as the router's parameter scanner reads them ----

  /** An encoded component holds neither separator nor "=". */
  lemma EncodedSepFree(s: string)
    ensures Query.SepFree(EncodeUriComponent(s)) && '=' !in EncodeUriComponent(s)
  {
    EncodedHasNoDelimiters(s);
    var e := EncodeUriComponent(s);
    assert '&' !in e && '?' !in e;
    forall i | 0 <= i < |e| ensures !Query.IsSep(e[i]) {
      assert e[i] in e;
    }
  }

  /** The $expand query reads back: the name parameter yields the encoded URI, which
      decodes to the URI, and `_count` yields 100. */
  lemma ExpansionQueryReadBack(valueSetUri: Option<string>, fhirVersion: string, pathPrefix: string)
    requires PresentString(valueSetUri)
    ensures var r := ValueSetExpansionPath(valueSetUri, fhirVersion, pathPrefix).value;
      var k := |pathPrefix| + 17;
      && r[..k] == pathPrefix + "/ValueSet/$expand"
      && Query.GetParam(r[k..], ExpansionParam(fhirVersion)) == Some(EncodeUriComponent(valueSetUri.value))
      && DecodeUriComponent(EncodeUriComponent(valueSetUri.value)) == valueSetUri
      && Query.GetParam(r[k..], "_count") == Some("100")
  {
    var e := EncodeUriComponent(valueSetUri.value);
    var p := ExpansionParam(fhirVersion);
    ExpansionPathParts(pathPrefix, p, e);
    DecodeEncode(valueSetUri.value);
    assert e != "";
    EncodedSepFree(valueSetUri.value);
    ExpansionNameReadBack(p, e, "&_count=100");
    CountReadBack(p, e);
  }

  /** The expansion parameter is the first of the query. */
  lemma ExpansionNameReadBack(p: string, e: string, rest: string)
    requires p == "url" || p == "identifier"
    requires e != "" && Query.SepFree(e) && (rest == "" || Query.IsSep(rest[0]))
    ensures Query.GetParam("?" + p + "=" + e + rest, p) == Some(e)
  {
    ParamNamesSepFree();
    NothingInEmpty(p);
    Query.GetParamAfter("", '?', e, rest, p);
    FirstPairLiteral(p, e, rest);
  }

  lemma FirstPairLiteral(p: string, v: string, rest: string)
    ensures "" + ['?'] + p + "=" + v + rest == "?" + p + "=" + v + rest
  {
  }

  lemma NothingInEmpty(name: string)
    ensures !Query.ContainsParam("", name)
  {
    assert !Query.ParamAt("", name, 0);
  }

  lemma CountReadBack(p: string, e: string)
    requires p == "url" || p == "identifier"
    requires '=' !in e
    ensures Query.GetParam("?" + p + "=" + e + "&_count=100", "_count") == Some("100")
  {
    var q := "?" + p + "=" + e;
    CountAbsent(p, e);
    ParamNamesSepFree();
    Query.GetParamAfter(q, '&', "100", "", "_count");
    CountLiteral(q);
  }

  lemma CountLiteral(q: string)
    ensures q + ['&'] + "_count" + "=" + "100" + "" == q + "&_count=100"
  {
    assert "&_count=100" == ['&'] + "_count" + "=" + "100" + "";
  }

  /** The CodeSystem search query reads back: its `url` parameter yields the URI, when the
      URI is non-empty and free of separators. */
  lemma SearchQueryReadBack(codeSystemUri: string, pathPrefix: string)
    requires codeSystemUri != "" && Query.SepFree(codeSystemUri)
    ensures var r := CodeSystemSearchPath(codeSystemUri, pathPrefix);
      var k := |pathPrefix| + 11;
      r[..k] == pathPrefix + "/CodeSystem" && Query.GetParam(r[k..], "url") == Some(codeSystemUri)
  {
    SearchPathParts(codeSystemUri, pathPrefix);
    ParamNamesSepFree();
    NothingInEmpty("url");
    Query.GetParamAfter("", '?', codeSystemUri, "", "url");
    FirstPairLiteral("url", codeSystemUri, "");
  }

  lemma SearchPathParts(codeSystemUri: string, pathPrefix: string)
    ensures var r := CodeSystemSearchPath(codeSystemUri, pathPrefix);
      r[..|pathPrefix| + 11] == pathPrefix + "/CodeSystem" &&
      r[|pathPrefix| + 11..] == "?" + "url" + "=" + codeSystemUri + ""
  {
    var h := pathPrefix + "/CodeSystem";
    assert pathPrefix + "/CodeSystem?url=" == h + "?url=";
    assert pathPrefix + "/CodeSystem?url=" + codeSystemUri == h + ("?" + "url" + "=" + codeSystemUri + "");
  }

  /** The $lookup query reads back: `system` and `code` yield their values, and `version`
      yields the version exactly when it is truthy. The values must be non-empty and free of
      separators, and an earlier value must not itself hold a later parameter's pattern,
      which the unanchored pattern would find first. */
  lemma LookupQueryReadBack(system: string, code: string, options: LookupOptions)
    requires system != "" && Query.SepFree(system) && code != "" && Query.SepFree(code)
    requires !Query.ContainsParam(system, "version") && !Query.ContainsParam(system, "code")
    requires !Query.ContainsParam(code, "version")
    requires PresentString(options.version) ==>
      Query.SepFree(options.version.value) && !Query.ContainsParam(options.version.value, "code")
    ensures var r := LookupPath(system, code, options);
      var k := |options.pathPrefix| + 19;
      && r[..k] == options.pathPrefix + "/CodeSystem/$lookup"
      && Query.GetParam(r[k..], "system") == Some(system)
      && Query.GetParam(r[k..], "code") == Some(code)
      && (Query.ContainsParam(r[k..], "version") <==> PresentString(options.version))
      && (PresentString(options.version) ==> Query.GetParam(r[k..], "version") == options.version)
  {
    ParamNamesSepFree();
    if PresentString(options.version) {
      var v := options.version.value;
      VersionedQuery(options.pathPrefix, system, v, code);
      SystemReadBack(system, "&version=" + v + "&code=" + code);
      VersionReadBack(system, v, code);
      CodeAfterVersion(system, v, code);
    } else {
      UnversionedQuery(options.pathPrefix, system, code);
      SystemReadBack(system, "&code=" + code);
      CodeWithoutVersion(system, code);
      VersionAbsent(system, code);
    }
  }

  lemma VersionedQuery(pathPrefix: string, system: string, v: string, code: string)
    ensures var r := pathPrefix + "/CodeSystem/$lookup?system=" + system + "&version=" + v + "&code=" + code;
      && r[..|pathPrefix| + 19] == pathPrefix + "/CodeSystem/$lookup"
      && r[|pathPrefix| + 19..] == "?system=" + system + "&version=" + v + "&code=" + code
      && r[|pathPrefix| + 19..] == "?system=" + system + ("&version=" + v + "&code=" + code)
  {
    var h := pathPrefix + "/CodeSystem/$lookup";
    assert pathPrefix + "/CodeSystem/$lookup?system=" == h + "?system=";
    assert pathPrefix + "/CodeSystem/$lookup?system=" + system + "&version=" + v + "&code=" + code ==
      h + ("?system=" + system + "&version=" + v + "&code=" + code);
  }

  lemma UnversionedQuery(pathPrefix: string, system: string, code: string)
    ensures var r := pathPrefix + "/CodeSystem/$lookup?system=" + system + "&code=" + code;
      && r[..|pathPrefix| + 19] == pathPrefix + "/CodeSystem/$lookup"
      && r[|pathPrefix| + 19..] == "?system=" + system + "&code=" + code
      && r[|pathPrefix| + 19..] == "?system=" + system + ("&code=" + code)
  {
    var h := pathPrefix + "/CodeSystem/$lookup";
    assert pathPrefix + "/CodeSystem/$lookup?system=" == h + "?system=";
    assert pathPrefix + "/CodeSystem/$lookup?system=" + system + "&code=" + code ==
      h + ("?system=" + system + "&code=" + code);
  }

  /** `system` is the first parameter of the query. */
  lemma SystemReadBack(system: string, rest: string)
    requires system != "" && Query.SepFree(system) && rest != [] && rest[0] == '&'
    ensures Query.GetParam("?system=" + system + rest, "system") == Some(system)
  {
    ParamNamesSepFree();
    NothingInEmpty("system");
    Query.GetParamAfterKey("", "?system=", system, rest, "system");
    assert "" + "?system=" == "?system=";
  }

  /** The version, between system and code, reads back. */
  lemma VersionReadBack(system: string, v: string, code: string)
    requires Query.SepFree(system) && !Query.ContainsParam(system, "version")
    requires v != "" && Query.SepFree(v)
    ensures Query.GetParam("?system=" + system + "&version=" + v + "&code=" + code, "version") == Some(v)
  {
    ParamNamesSepFree();
    var q := "?system=" + system;
    Query.ClearIff(system, "version");
    Query.ClearConcat("?system=", system, "version");
    Query.ClearIff(q, "version");
    Query.GetParamAfterKey(q, "&version=", v, "&code=" + code, "version");
    assert q + "&version=" + v + ("&code=" + code) == "?system=" + system + "&version=" + v + "&code=" + code;
  }

  /** With a version, `code` comes after both other parameters. */
  lemma CodeAfterVersion(system: string, v: string, code: string)
    requires Query.SepFree(system) && !Query.ContainsParam(system, "code")
    requires Query.SepFree(v) && !Query.ContainsParam(v, "code")
    requires code != "" && Query.SepFree(code)
    ensures Query.GetParam("?system=" + system + "&version=" + v + "&code=" + code, "code") == Some(code)
  {
    ParamNamesSepFree();
    var q := "?system=" + system + "&version=" + v;
    Query.ClearIff(system, "code");
    Query.ClearIff(v, "code");
    Query.ClearConcat("&version=", v, "code");
    Query.ClearThenSep(system, "&version=" + v, "code");
    Query.ClearConcat("?system=", system + ("&version=" + v), "code");
    assert "?system=" + (system + ("&version=" + v)) == q;
    Query.ClearIff(q, "code");
    Query.GetParamAfterKey(q, "&code=", code, "", "code");
    assert q + "&code=" + code + "" == q + "&code=" + code;
  }

  /** Without a version, `code` follows `system`. */
  lemma CodeWithoutVersion(system: string, code: string)
    requires Query.SepFree(system) && !Query.ContainsParam(system, "code")
    requires code != "" && Query.SepFree(code)
    ensures Query.GetParam("?system=" + system + "&code=" + code, "code") == Some(code)
  {
    ParamNamesSepFree();
    var q := "?system=" + system;
    Query.ClearIff(system, "code");
    Query.ClearConcat("?system=", system, "code");
    Query.ClearIff(q, "code");
    Query.GetParamAfterKey(q, "&code=", code, "", "code");
    assert q + "&code=" + code + "" == q + "&code=" + code;
  }

  /** Without a version, no `version` parameter is found. */
  lemma VersionAbsent(system: string, code: string)
    requires Query.SepFree(system) && !Query.ContainsParam(system, "version")
    requires !Query.ContainsParam(code, "version")
    ensures !Query.ContainsParam("?system=" + system + "&code=" + code, "version")
  {
    ParamNamesSepFree();
    var q := "?system=" + system;
    Query.ClearIff(system, "version");
    Query.ClearIff(code, "version");
    Query.ClearConcat("&code=", code, "version");
    Query.ClearThenSep(system, "&code=" + code, "version");
    Query.ClearConcat("?system=", system + ("&code=" + code), "version");
    assert "?system=" + (system + ("&code=" + code)) == q + "&code=" + code;
    Query.ClearIff(q + "&code=" + code, "version");
  }

  /** The parameter names and the count value hold no separator. */
  lemma ParamNamesSepFree()
    ensures Query.SepFree("url") && Query.SepFree("identifier") && Query.SepFree("_count") && Query.SepFree("100")
    ensures Query.SepFree("system") && Query.SepFree("version") && Query.SepFree("code")
  {
  }

  lemma ExpansionPathParts(pathPrefix: string, p: string, e: string)
    ensures var r := pathPrefix + "/ValueSet/$expand?" + p + "=" + e + "&_count=100";
      r[..|pathPrefix| + 17] == pathPrefix + "/ValueSet/$expand" &&
      r[|pathPrefix| + 17..] == "?" + p + "=" + e + "&_count=100"
  {
    var h := pathPrefix + "/ValueSet/$expand";
    assert pathPrefix + "/ValueSet/$expand?" == h + "?";
    assert pathPrefix + "/ValueSet/$expand?" + p + "=" + e + "&_count=100" == h + ("?" + p + "=" + e + "&_count=100");
  }

  /** The expansion parameter and an encoded URI leave no room for a `_count` match. */
  lemma CountAbsent(p: string, e: string)
    requires p == "url" || p == "identifier"
    requires '=' !in e
    ensures !Query.ContainsParam("?" + p + "=" + e, "_count")
  {
    Query.ClearWithoutEquals(e, "_count");
    Query.ClearConcat("?" + p + "=", e, "_count");
    Query.ClearIff("?" + p + "=" + e, "_count");
  }

  // ---- sniffFormat ----

  const JsonContentTypes: seq<string> := ["application/json", "application/fhir+json", "application/json+fhir"]
  const XmlContentTypes: seq<string> := ["text/xml", "application/xml", "application/fhir+xml", "application/xml+fhir"]

  /** An unanchored alternation of literals: some alternative occurs in the header. */
  predicate MentionsAny(contentType: string, types: seq<string>) {
    exists k :: 0 <= k < |types| && Text.Contains(contentType, types[k])
  }

  const SniffFailure := "Could not sniff format as either JSON or XML."

  /** The format named by a Content-Type header; JSON is checked first, and anything else
      throws. Matching is case-sensitive. */
  function SniffFormat(contentType: string): (r: Result<Format, string>)
    ensures r == Ok(Json) <==> MentionsAny(contentType, JsonContentTypes)
    ensures r == Ok(Xml) <==> !MentionsAny(contentType, JsonContentTypes) && MentionsAny(contentType, XmlContentTypes)
    ensures r.Err? <==> !MentionsAny(contentType, JsonContentTypes) && !MentionsAny(contentType, XmlContentTypes)
    ensures r.Err? ==> r.error == SniffFailure
  {
    if MentionsAny(contentType, JsonContentTypes) then Ok(Json)
    else if MentionsAny(contentType, XmlContentTypes) then Ok(Xml)
    else Err(SniffFailure)
  }

  // ---- translateHref ----

  /** Length of the run of lower-case ASCII letters at the start of s. */
  function LowerRun(s: string): (n: nat)
    ensures n <= |s|
    ensures forall i :: 0 <= i < n ==> 'a' <= s[i] <= 'z'
    ensures n == |s| || !('a' <= s[n] <= 'z')
  {
    if s != [] && 'a' <= s[0] <= 'z' then 1 + LowerRun(s[1..]) else 0
  }

  /** /^([a-z]+:){0,1}\/\//: protocol-relative, or a lower-case scheme followed by "://". */
  predicate IsAbsoluteHref(href: string) {
    "//" <= href || (LowerRun(href) > 0 && "://" <= href[LowerRun(href)..])
  }

  /** The protocol (with its colon) and host name that `new URL(fhirServer)` reports. */
  datatype UrlParts = UrlParts(protocol: string, hostname: string)

  /** The href a narrative link gets. `serverUrl` is what `new URL(fhirServer)` yields,
      None when it throws; only root-relative hrefs consult it. */
  function TranslateHref(href: string, fhirServer: string, serverUrl: Option<UrlParts>): (r: Option<string>)
    ensures href == "" ==> r == Some("")
    ensures href != "" && (IsAbsoluteHref(href) || "#" <= href) ==> r == Some(href)
    ensures href != "" && !IsAbsoluteHref(href) && !("/" <= href) && !("#" <= href) ==> r == Some(fhirServer + "/" + href)
    ensures href != "" && !IsAbsoluteHref(href) && "/" <= href ==>
      r == (if serverUrl.Some? then Some(serverUrl.value.protocol + serverUrl.value.hostname + href) else None)
  {
    if href == "" then Some("")
    else if IsAbsoluteHref(href) then Some(href)
    else if "/" <= href then
      match serverUrl
      case None => None
      case Some(u) => Some(u.protocol + u.hostname + href)
    else if "#" <= href then Some(href)
    else Some(fhirServer + "/" + href)
  }

  /** The corrected translation: a root-relative href gets "//" between the protocol and
      the host name, so the link it yields is absolute. */
  function TranslateHrefIntended(href: string, fhirServer: string, serverUrl: Option<UrlParts>): (r: Option<string>)
    ensures href != "" && !IsAbsoluteHref(href) && "/" <= href ==>
      r == (if serverUrl.Some? then Some(serverUrl.value.protocol + "//" + serverUrl.value.hostname + href) else None)
    ensures !(href != "" && !IsAbsoluteHref(href) && "/" <= href) ==> r == TranslateHref(href, fhirServer, serverUrl)
  {
    if href != "" && !IsAbsoluteHref(href) && "/" <= href then
      match serverUrl
      case None => None
      case Some(u) => Some(u.protocol + "//" + u.hostname + href)
    else TranslateHref(href, fhirServer, serverUrl)
  }

  // ---- properties ----

  lemma {:induction false} LowerRunOfScheme(scheme: string, rest: string)
    requires forall i :: 0 <= i < |scheme| ==> 'a' <= scheme[i] <= 'z'
    requires rest == [] || !('a' <= rest[0] <= 'z')
    ensures LowerRun(scheme + rest) == |scheme|
    decreases |scheme|
  {
    if scheme != [] {
      assert (scheme + rest)[1..] == scheme[1..] + rest;
      LowerRunOfScheme(scheme[1..], rest);
    }
  }

  /** With a protocol made of a lower-case scheme and its colon, every root-relative href
      the corrected translation produces is absolute. */
  lemma IntendedRootRelativeIsAbsolute(href: string, fhirServer: string, scheme: string, hostname: string)
    requires "/" <= href && !IsAbsoluteHref(href)
    requires scheme != [] && forall i :: 0 <= i < |scheme| ==> 'a' <= scheme[i] <= 'z'
    ensures var r := TranslateHrefIntended(href, fhirServer, Some(UrlParts(scheme + ":", hostname)));
      r.Some? && IsAbsoluteHref(r.value)
  {
    var out := scheme + ":" + "//" + hostname + href;
    assert out == scheme + ("://" + hostname + href);
    LowerRunOfScheme(scheme, "://" + hostname + href);
    assert out[|scheme|..] == "://" + hostname + href;
  }

  /** The translation as written drops the "//": for any lower-case scheme and any host
      name, a root-relative href becomes "scheme:host/path", which is not an absolute link. */
  lemma AsWrittenRootRelativeNotAbsolute(href: string, fhirServer: string, scheme: string, hostname: string)
    requires "/" <= href && !IsAbsoluteHref(href)
    requires scheme != [] && forall i :: 0 <= i < |scheme| ==> 'a' <= scheme[i] <= 'z'
    requires hostname != [] && hostname[0] != '/'
    ensures var r := TranslateHref(href, fhirServer, Some(UrlParts(scheme + ":", hostname)));
      r == Some(scheme + ":" + hostname + href) && !IsAbsoluteHref(r.value)
  {
    SchemeColonHostNotAbsolute(href, scheme, hostname);
  }

  lemma SchemeColonHostNotAbsolute(href: string, scheme: string, hostname: string)
    requires scheme != [] && forall i :: 0 <= i < |scheme| ==> 'a' <= scheme[i] <= 'z'
    requires hostname != [] && hostname[0] != '/'
    ensures !IsAbsoluteHref(scheme + ":" + hostname + href)
  {
    var out := scheme + ":" + hostname + href;
    assert out == scheme + (":" + hostname + href);
    LowerRunOfScheme(scheme, ":" + hostname + href);
    assert out[|scheme|..] == ":" + hostname + href;
    assert out[|scheme| + 1] == hostname[0];
    assert out[0] == scheme[0];
  }

  /** The instance of the narrative tests: "/some/thing" against "http://hl7.org/fhir/STU3"
      gives "http:hl7.org/some/thing" where "http://hl7.org/some/thing" is expected. */
  lemma RootRelativeHrefExample()
    ensures var parts := Some(UrlParts("http:", "hl7.org"));
      && TranslateHref("/some/thing", "http://hl7.org/fhir/STU3", parts) == Some("http:hl7.org/some/thing")
      && TranslateHrefIntended("/some/thing", "http://hl7.org/fhir/STU3", parts) == Some("http://hl7.org/some/thing")
  {
    var h := "/some/thing";
    assert h[0] == '/' && h[1] == 's';
    assert !IsAbsoluteHref(h);
    HrefLiterals();
  }

  lemma HrefLiterals()
    ensures "http:" + "hl7.org" + "/some/thing" == "http:hl7.org/some/thing"
    ensures "http:" + "//" + "hl7.org" + "/some/thing" == "http://hl7.org/some/thing"
  {
  }

  /** Any Content-Type header that carries one of the JSON media types, with whatever
      parameters around it, sniffs as JSON. */
  lemma SniffJsonHeader(k: nat, before: string, after: string)
    requires k < |JsonContentTypes|
    ensures SniffFormat(before + JsonContentTypes[k] + after) == Ok(Json)
  {
    var ct := before + JsonContentTypes[k] + after;
    assert ct[|before|..|before| + |JsonContentTypes[k]|] == JsonContentTypes[k];
    assert Text.OccursAt(ct, JsonContentTypes[k], |before|);
  }

  /** A header that carries one of the XML media types sniffs successfully, and as XML
      unless it also carries a JSON media type. */
  lemma SniffXmlHeader(k: nat, before: string, after: string)
    requires k < |XmlContentTypes|
    ensures var ct := before + XmlContentTypes[k] + after;
      SniffFormat(ct).Ok? && (!MentionsAny(ct, JsonContentTypes) ==> SniffFormat(ct) == Ok(Xml))
  {
    var ct := before + XmlContentTypes[k] + after;
    assert ct[|before|..|before| + |XmlContentTypes[k]|] == XmlContentTypes[k];
    assert Text.OccursAt(ct, XmlContentTypes[k], |before|);
  }

  /** A missing (empty) Content-Type cannot be sniffed. */
  lemma SniffEmptyHeader()
    ensures SniffFormat("") == Err(SniffFailure)
  {
    assert !MentionsAny("", JsonContentTypes) && !MentionsAny("", XmlContentTypes) by {
      forall k | 0 <= k < |JsonContentTypes| ensures !Text.Contains("", JsonContentTypes[k]) {
        assert forall i :: !Text.OccursAt("", JsonContentTypes[k], i);
      }
      forall k | 0 <= k < |XmlContentTypes| ensures !Text.Contains("", XmlContentTypes[k]) {
        assert forall i :: !Text.OccursAt("", XmlContentTypes[k], i);
      }
    }
  }

  lemma {:induction false} DigitRunOfDigits(ds: string, rest: string)
    requires forall i :: 0 <= i < |ds| ==> IsDigit(ds[i])
    requires rest == [] || !IsDigit(rest[0])
    ensures DigitRun(ds + rest) == |ds|
    decreases |ds|
  {
    if ds != [] {
      assert (ds + rest)[1..] == ds[1..] + rest;
      DigitRunOfDigits(ds[1..], rest);
    }
  }

  lemma DigitsNotTrimmed(ds: string)
    requires ds != [] && forall i :: 0 <= i < |ds| ==> IsDigit(ds[i])
    ensures TrimStart(ds) == ds
  {
    assert IsDigit(ds[0]);
  }

  /** parseInt of a plain run of decimal digits is their value. */
  lemma ParseIntOfDigits(ds: string)
    requires ds != [] && forall i :: 0 <= i < |ds| ==> IsDigit(ds[i])
    ensures ParseInt(ds) == Some(DigitsValue(ds))
  {
    DigitsNotTrimmed(ds);
    DigitRunOfDigits(ds, []);
    assert ds + [] == ds;
    assert IsDigit(ds[0]);
    assert ds[0] != '-' && ds[0] != '+';
    assert ds[..|ds|] == ds;
  }

  /** For a release number "M.m.p" whose major part M is a plain decimal, the major version
      is M, and the $expand request names the ValueSet by `url` exactly when M >= 3. */
  lemma MajorVersionOfRelease(major: string, rest: string)
    requires major != [] && forall i :: 0 <= i < |major| ==> IsDigit(major[i])
    ensures MajorVersion(major + "." + rest) == Some(DigitsValue(major))
    ensures ExpansionParam(major + "." + rest) == (if DigitsValue(major) >= 3 then "url" else "identifier")
  {
    assert '.' !in major by {
      forall i | 0 <= i < |major| ensures major[i] != '.' {
        assert IsDigit(major[i]);
      }
    }
    Text.SplitHead(major, rest, '.');
    ParseIntOfDigits(major);
  }

  /** The STU3 release names the ValueSet by `url`. */
  lemma ExpansionParamStu3()
    ensures ExpansionParam("3.0.1") == "url"
  {
    assert "3" + "." + "0.1" == "3.0.1";
    assert DigitsValue("3") == 3 by {
      assert "3"[..0] == [];
    }
    MajorVersionOfRelease("3", "0.1");
  }

  /** The DSTU2 release names it by `identifier`. */
  lemma ExpansionParamDstu2()
    ensures ExpansionParam("1.0.2") == "identifier"
  {
    assert "1" + "." + "0.2" == "1.0.2";
    assert DigitsValue("1") == 1 by {
      assert "1"[..0] == [];
    }
    MajorVersionOfRelease("1", "0.2");
  }

}
