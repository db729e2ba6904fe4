/** The older path builders of src/fhir/paths.js: no path prefix, no `_count`, and the
    lookup version passed by position. */
module LegacyPaths {
  import opened Wrappers
  import opened UriEncoding
  import RestApi
  import Query

  /** The $expand path for a ValueSet URI, or null when the URI is falsy. */
  function ValueSetExpansionPath(valueSetUri: Option<string>, fhirVersion: string): (r: Option<string>)
    ensures r.Some? <==> RestApi.PresentString(valueSetUri)
    ensures r.Some? ==> r.value == "/ValueSet/$expand?" + RestApi.ExpansionParam(fhirVersion) + "=" + EncodeUriComponent(valueSetUri.value)
    ensures r.Some? ==> exists e ::
      && r.value == "/ValueSet/$expand?" + RestApi.ExpansionParam(fhirVersion) + "=" + e
      && DecodeUriComponent(e) == Some(valueSetUri.value)
      && '&' !in e && '#' !in e
  {
    if !RestApi.PresentString(valueSetUri) then None
    else
      var e := EncodeUriComponent(valueSetUri.value);
      DecodeEncode(valueSetUri.value);
      EncodedHasNoDelimiters(valueSetUri.value);
      Some("/ValueSet/$expand?" + RestApi.ExpansionParam(fhirVersion) + "=" + e)
  }

  /** The CodeSystem search path, with the URI inserted as it is. */
  function CodeSystemSearchPath(codeSystemUri: string): (r: string)
    ensures |r| == 16 + |codeSystemUri| && r[16..] == codeSystemUri
    ensures r[..16] == "/CodeSystem?url="
  {
    "/CodeSystem?url=" + codeSystemUri
  }

  /** The $lookup path; the version parameter is present only when the version is truthy. */
  function LookupPath(system: string, code: string, version: Option<string>): (r: string)
    ensures RestApi.PresentString(version) ==>
      r == "/CodeSystem/$lookup?system=" + system + "&version=" + version.value + "&code=" + code
    ensures !RestApi.PresentString(version) ==>
      r == "/CodeSystem/$lookup?system=" + system + "&code=" + code
  {
    if RestApi.PresentString(version) then
      "/CodeSystem/$lookup?system=" + system + "&version=" + version.value + "&code=" + code
    else
      "/CodeSystem/$lookup?system=" + system + "&code=" + code
  }

  /** The current $expand path with no prefix is the older one with `&_count=100` added. */
  lemma ExpansionPathRevisions(valueSetUri: Option<string>, fhirVersion: string)
    ensures var older := ValueSetExpansionPath(valueSetUri, fhirVersion);
      RestApi.ValueSetExpansionPath(valueSetUri, fhirVersion, "") ==
        (if older.Some? then Some(older.value + "&_count=100") else None)
  {
    if RestApi.PresentString(valueSetUri) {
      var e := EncodeUriComponent(valueSetUri.value);
      var p := RestApi.ExpansionParam(fhirVersion);
      assert "" + "/ValueSet/$expand?" == "/ValueSet/$expand?";
    }
  }

  /** With no prefix, the two revisions build the same search and lookup paths. */
  lemma SearchAndLookupRevisions(codeSystemUri: string, system: string, code: string, version: Option<string>)
    ensures RestApi.CodeSystemSearchPath(codeSystemUri, "") == CodeSystemSearchPath(codeSystemUri)
    ensures RestApi.LookupPath(system, code, RestApi.LookupOptions(version, "")) == LookupPath(system, code, version)
  {
    assert "" + "/CodeSystem?url=" + codeSystemUri == "/CodeSystem?url=" + codeSystemUri;
    assert "" + "/CodeSystem/$lookup?system=" == "/CodeSystem/$lookup?system=";
  }

  /** The older $expand query reads back: its one parameter yields the encoded URI, which
      decodes to the URI. */
  lemma ExpansionQueryReadBack(valueSetUri: Option<string>, fhirVersion: string)
    requires RestApi.PresentString(valueSetUri)
    ensures var r := ValueSetExpansionPath(valueSetUri, fhirVersion).value;
      && r[..17] == "/ValueSet/$expand"
      && Query.GetParam(r[17..], RestApi.ExpansionParam(fhirVersion)) == Some(EncodeUriComponent(valueSetUri.value))
      && DecodeUriComponent(EncodeUriComponent(valueSetUri.value)) == valueSetUri
  {
    var e := EncodeUriComponent(valueSetUri.value);
    var p := RestApi.ExpansionParam(fhirVersion);
    ExpansionPathParts(p, e);
    DecodeEncode(valueSetUri.value);
    assert e != "";
    RestApi.EncodedSepFree(valueSetUri.value);
    RestApi.ExpansionNameReadBack(p, e, "");
  }

  lemma ExpansionPathParts(p: string, e: string)
    ensures var r := "/ValueSet/$expand?" + p + "=" + e;
      r[..17] == "/ValueSet/$expand" && r[17..] == "?" + p + "=" + e + ""
  {
    assert "/ValueSet/$expand?" == "/ValueSet/$expand" + "?";
    assert "/ValueSet/$expand?" + p + "=" + e == "/ValueSet/$expand" + ("?" + p + "=" + e + "");
  }

  /** The older search query reads back like the current one. */
  lemma SearchQueryReadBack(codeSystemUri: string)
    requires codeSystemUri != "" && Query.SepFree(codeSystemUri)
    ensures var r := CodeSystemSearchPath(codeSystemUri);
      r[..11] == "/CodeSystem" && Query.GetParam(r[11..], "url") == Some(codeSystemUri)
  {
    SearchAndLookupRevisions(codeSystemUri, "", "", None);
    RestApi.SearchQueryReadBack(codeSystemUri, "");
  }

  /** The older $lookup query reads back like the current one. */
  lemma LookupQueryReadBack(system: string, code: string, version: Option<string>)
    requires system != "" && Query.SepFree(system) && code != "" && Query.SepFree(code)
    requires !Query.ContainsParam(system, "version") && !Query.ContainsParam(system, "code")
    requires !Query.ContainsParam(code, "version")
    requires RestApi.PresentString(version) ==> Query.SepFree(version.value) && !Query.ContainsParam(version.value, "code")
    ensures var r := LookupPath(system, code, version);
      && r[..19] == "/CodeSystem/$lookup"
      && Query.GetParam(r[19..], "system") == Some(system)
      && Query.GetParam(r[19..], "code") == Some(code)
      && (Query.ContainsParam(r[19..], "version") <==> RestApi.PresentString(version))
      && (RestApi.PresentString(version) ==> Query.GetParam(r[19..], "version") == version)
  {
    var options := RestApi.LookupOptions(version, "");
    SearchAndLookupRevisions("", system, code, version);
    RestApi.LookupQueryReadBack(system, code, options);
    assert |options.pathPrefix| + 19 == 19;
    assert options.pathPrefix + "/CodeSystem/$lookup" == "/CodeSystem/$lookup";
  }
}
