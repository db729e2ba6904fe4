/** The query-string and path helpers of src/fhir/common.js: the OID pattern, the
    `_format` parameter pattern, and the named-parameter helpers the router imports
    from the same module. Each regular expression is written out as the scanner that
    finds its leftmost match. */
module Query {
  import opened Wrappers
  import Text

  // ---- oidPattern: /urn:oid:([\d.]+)/ ----

  predicate IsOidChar(c: char) {
    '0' <= c <= '9' || c == '.'
  }

  /** Length of the run of digits and dots at the start of s. */
  function OidRun(s: string): (n: nat)
    ensures n <= |s|
    ensures forall i :: 0 <= i < n ==> IsOidChar(s[i])
    ensures n == |s| || !IsOidChar(s[n])
  {
    if s != [] && IsOidChar(s[0]) then 1 + OidRun(s[1..]) else 0
  }

  const OidPrefix := "urn:oid:"

  /** The OID pattern matches at index i: the prefix, then at least one digit or dot. */
  predicate OidAt(s: string, i: int) {
    0 <= i && i + |OidPrefix| < |s| && s[i..i + |OidPrefix|] == OidPrefix && IsOidChar(s[i + |OidPrefix|])
  }

  /** The first index at or after i where the OID pattern matches. */
  function FirstOid(s: string, i: nat): (r: Option<nat>)
    requires i <= |s|
    ensures r.None? ==> forall j :: i <= j ==> !OidAt(s, j)
    ensures r.Some? ==> i <= r.value && OidAt(s, r.value) && forall j :: i <= j < r.value ==> !OidAt(s, j)
    decreases |s| - i
  {
    if i == |s| then None
    else if OidAt(s, i) then Some(i)
    else FirstOid(s, i + 1)
  }

  /** The capture group of the OID pattern at index i: the longest run of digits and dots
      after the prefix. */
  function OidCaptureAt(s: string, i: nat): (c: string)
    requires OidAt(s, i)
    ensures |c| > 0 && forall k :: 0 <= k < |c| ==> IsOidChar(c[k])
    ensures i + |OidPrefix| + |c| <= |s|
    ensures i + |OidPrefix| + |c| == |s| || !IsOidChar(s[i + |OidPrefix| + |c|])
    ensures c == s[i + |OidPrefix|..i + |OidPrefix| + |c|]
  {
    var rest := s[i + |OidPrefix|..];
    rest[..OidRun(rest)]
  }

  /** `s.match(oidPattern)[1]`: the capture of the leftmost match, or None when the
      pattern matches nowhere. */
  function OidMatch(s: string): (r: Option<string>)
    ensures r.None? <==> forall i :: 0 <= i ==> !OidAt(s, i)
    ensures r.Some? ==> exists i: nat :: OidAt(s, i) && (forall j :: 0 <= j < i ==> !OidAt(s, j)) && r.value == OidCaptureAt(s, i)
  {
    match FirstOid(s, 0)
    case None => None
    case Some(i) => Some(OidCaptureAt(s, i))
  }

  // ---- named query parameters: /(\?|&|)<name>=[^?&]+[&?]{0,1}/g ----

  predicate IsSep(c: char) {
    c == '?' || c == '&'
  }

  predicate SepFree(s: string) {
    forall i :: 0 <= i < |s| ==> !IsSep(s[i])
  }

  /** Length of the run of non-separator characters at the start of s. */
  function ValueRun(s: string): (n: nat)
    ensures n <= |s|
    ensures forall i :: 0 <= i < n ==> !IsSep(s[i])
    ensures n == |s| || IsSep(s[n])
  {
    if s != [] && !IsSep(s[0]) then 1 + ValueRun(s[1..]) else 0
  }

  /** The body of the parameter pattern matches at the start of s: `name=` and at least
      one character that is not a separator. */
  predicate ParamStart(s: string, name: string) {
    |name| + 1 < |s| && s[..|name|] == name && s[|name|] == '=' && !IsSep(s[|name| + 1])
  }

  predicate ParamAt(q: string, name: string, i: int) {
    0 <= i <= |q| && ParamStart(q[i..], name)
  }

  /** How much of s the body match takes: `name=`, the whole value, and one separator
      after it when there is one. */
  function MatchLen(s: string, name: string): (n: nat)
    requires ParamStart(s, name)
    ensures |name| + 2 <= n <= |s|
  {
    var v := |name| + 1;
    var e := v + ValueRun(s[v..]);
    if e < |s| then e + 1 else e
  }

  /** The value of the parameter whose body matches at index i. */
  function ValueAt(q: string, name: string, i: nat): (v: string)
    requires ParamAt(q, name, i)
    ensures |v| > 0 && SepFree(v)
  {
    var rest := q[i + |name| + 1..];
    rest[..ValueRun(rest)]
  }

  /** The first index at or after i where the parameter pattern matches. */
  function FirstParam(q: string, name: string, i: nat): (r: Option<nat>)
    requires i <= |q|
    ensures r.None? ==> forall j :: i <= j ==> !ParamAt(q, name, j)
    ensures r.Some? ==> i <= r.value && ParamAt(q, name, r.value) && forall j :: i <= j < r.value ==> !ParamAt(q, name, j)
    decreases |q| - i
  {
    if ParamAt(q, name, i) then Some(i)
    else if i == |q| then None
    else FirstParam(q, name, i + 1)
  }

  /** `containsParam`: the parameter pattern matches somewhere in the query. */
  function ContainsParam(q: string, name: string): (r: bool)
    ensures r <==> exists i :: ParamAt(q, name, i)
  {
    FirstParam(q, name, 0).Some?
  }

  /** `getParam`: the value of the leftmost occurrence of the parameter. */
  function GetParam(q: string, name: string): (r: Option<string>)
    ensures r.None? <==> !ContainsParam(q, name)
    ensures r.Some? ==> exists i: nat :: ParamAt(q, name, i) && (forall j :: 0 <= j < i ==> !ParamAt(q, name, j)) && r.value == ValueAt(q, name, i)
  {
    match FirstParam(q, name, 0)
    case None => None
    case Some(i) => Some(ValueAt(q, name, i))
  }

  /** The global replacement by "$1": a match that begins with a separator keeps that
      separator, a match that begins with the name leaves nothing, and scanning resumes
      after the match. */
  function Replace(s: string, name: string): (r: string)
    ensures |r| <= |s|
    decreases |s|
  {
    if s == [] then []
    else if IsSep(s[0]) && ParamStart(s[1..], name) then [s[0]] + Replace(s[1..][MatchLen(s[1..], name)..], name)
    else if ParamStart(s, name) then Replace(s[MatchLen(s, name)..], name)
    else [s[0]] + Replace(s[1..], name)
  }

  /** `.replace(/(\?|&)$/, '')`: one trailing separator goes. */
  function StripTrailingSep(s: string): (r: string)
    ensures s != [] && IsSep(s[|s| - 1]) ==> r + [s[|s| - 1]] == s
    ensures !(s != [] && IsSep(s[|s| - 1])) ==> r == s
  {
    if s != [] && IsSep(s[|s| - 1]) then s[..|s| - 1] else s
  }

  /** `removeParam`: every match of the parameter pattern replaced, then one trailing
      separator stripped. */
  function RemoveParam(q: string, name: string): (r: string)
    ensures |r| <= |q|
  {
    StripTrailingSep(Replace(q, name))
  }

  const FormatName := "_format"

  /** `containsFormatParam` of common.js. */
  function ContainsFormatParam(q: string): bool {
    ContainsParam(q, FormatName)
  }

  /** `removeFormatParam` of common.js. */
  function RemoveFormatParam(q: string): string {
    RemoveParam(q, FormatName)
  }

  // ---- addParam and addPathSuffix ----

  /** The values a parameter can be given: null, a string, or an array of strings. */
  datatype ParamValue = NullValue | Text(text: string) | List(items: seq<string>)

  /** The text a value takes in a template literal; an array is joined with commas. */
  function ValueText(v: ParamValue): string
    requires !v.NullValue?
  {
    match v
    case Text(t) => t
    case List(xs) => Text.Join(xs, ",")
  }

  /** `addParam`: a null value leaves the query alone; otherwise `name=value` is appended
      after "?" when the query is empty and after "&" when it is not. */
  function AddParam(q: string, name: string, value: ParamValue): (r: string)
    ensures value.NullValue? ==> r == q
    ensures !value.NullValue? ==> |r| == |q| + 1 + |name| + 1 + |ValueText(value)| && r[..|q|] == q
    ensures !value.NullValue? ==> r[|q|] == (if q == "" then '?' else '&')
    ensures !value.NullValue? ==> r[|q| + 1..] == name + "=" + ValueText(value)
  {
    if value.NullValue? then q
    else q + (if q == "" then "?" else "&") + name + "=" + ValueText(value)
  }

  function TrimTrailingSlashes(s: string): (r: string)
    ensures r <= s
    ensures r == [] || r[|r| - 1] != '/'
    ensures forall i :: |r| <= i < |s| ==> s[i] == '/'
  {
    if s != [] && s[|s| - 1] == '/' then TrimTrailingSlashes(s[..|s| - 1]) else s
  }

  function TrimLeadingSlashes(s: string): (r: string)
    ensures |r| <= |s| && r == s[|s| - |r|..]
    ensures r == [] || r[0] != '/'
    ensures forall i :: 0 <= i < |s| - |r| ==> s[i] == '/'
  {
    if s != [] && s[0] == '/' then TrimLeadingSlashes(s[1..]) else s
  }

  /** `addPathSuffix`: path and suffix joined by exactly one slash, whatever slashes
      either side brought; an empty suffix leaves the path as it is. */
  function AddPathSuffix(path: string, suffix: string): (r: string)
    ensures suffix == "" ==> r == path
    ensures suffix != "" ==>
      var a := TrimTrailingSlashes(path);
      var b := TrimLeadingSlashes(suffix);
      && r == a + "/" + b
      && a <= path && b == suffix[|suffix| - |b|..]
      && (a == [] || a[|a| - 1] != '/') && (b == [] || b[0] != '/')
  {
    if suffix == "" then path
    else TrimTrailingSlashes(path) + "/" + TrimLeadingSlashes(suffix)
  }

  // ---- properties of the parameter scanner ----

  /** A body match that begins inside t and reaches past its end would need a separator
      inside `name=` or its first value character. */
  lemma StartWithin(t: string, r: string, name: string)
    requires SepFree(name)
    requires r == [] || IsSep(r[0])
    ensures ParamStart(t + r, name) ==> ParamStart(t, name)
  {
    var s := t + r;
    if ParamStart(s, name) {
      forall k | 0 <= k < |name| ensures !IsSep(s[k]) {
        assert s[k] == s[..|name|][k];
      }
      if r != [] {
        assert IsSep(s[|t|]);
      }
      assert s[..|name|] == t[..|name|];
    }
  }

  lemma {:induction false} ValueRunOf(x: string, r: string)
    requires SepFree(x)
    requires r == [] || IsSep(r[0])
    ensures ValueRun(x + r) == |x|
    decreases |x|
  {
    if x == [] {
      assert x + r == r;
    } else {
      assert (x + r)[0] == x[0];
      assert (x + r)[1..] == x[1..] + r;
      ValueRunOf(x[1..], r);
    }
  }

  /** A whole `name=value` pair, followed by a separator or the end, is one match. */
  lemma MatchLenOfPair(p: string, r: string, name: string)
    requires SepFree(p) && ParamStart(p, name)
    requires r == [] || IsSep(r[0])
    ensures ParamStart(p + r, name)
    ensures MatchLen(p + r, name) == |p| + (if r == [] then 0 else 1)
  {
    var s := p + r;
    assert s[..|name|] == p[..|name|];
    var v := |name| + 1;
    assert s[v..] == p[v..] + r;
    ValueRunOf(p[v..], r);
  }

  /** Text that is empty or begins with a separator does not start a body match. */
  lemma NoStartAtSep(s: string, name: string)
    requires SepFree(name)
    requires s == [] || IsSep(s[0])
    ensures !ParamStart(s, name)
  {
    if |name| > 0 && |name| <= |s| {
      assert s[..|name|][0] == s[0];
    }
  }

  /** The pattern body matches at no suffix of q. */
  predicate Clear(q: string, name: string)
    decreases |q|
  {
    !ParamStart(q, name) && (q == [] || Clear(q[1..], name))
  }

  lemma {:induction false} ClearIff(q: string, name: string)
    ensures Clear(q, name) <==> !ContainsParam(q, name)
    decreases |q|
  {
    assert q[0..] == q;
    assert ParamAt(q, name, 0) <==> ParamStart(q, name);
    if q != [] {
      ClearIff(q[1..], name);
      forall i | 0 <= i <= |q| - 1 ensures ParamAt(q[1..], name, i) <==> ParamAt(q, name, i + 1) {
        assert q[1..][i..] == q[i + 1..];
      }
      if ContainsParam(q, name) && !ParamStart(q, name) {
        var i :| ParamAt(q, name, i);
        assert ParamAt(q[1..], name, i - 1);
      }
    }
  }

  /** Text in which the pattern matches nowhere, followed by a separator or the end, does
      not start a body match. */
  lemma NoStartAcross(q: string, t: string, name: string)
    requires SepFree(name)
    requires t == [] || IsSep(t[0])
    requires Clear(q, name)
    ensures !ParamStart(q + t, name)
  {
    StartWithin(q, t, name);
  }

  lemma ConsAppend(q: string, z: string)
    requires q != []
    ensures [q[0]] + (q[1..] + z) == q + z
  {
  }

  /** Where no match begins, the replacement copies one character. */
  lemma CopyStep(q: string, t: string, name: string)
    requires SepFree(name)
    requires t == [] || IsSep(t[0])
    requires q != [] && Clear(q, name)
    ensures Replace(q + t, name) == [q[0]] + Replace(q[1..] + t, name)
  {
    NoStartAcross(q, t, name);
    NoStartAcross(q[1..], t, name);
    ShiftCopies(q, t, name);
  }

  lemma ShiftCopies(q: string, t: string, name: string)
    requires q != [] && !ParamStart(q + t, name) && !ParamStart(q[1..] + t, name)
    ensures Replace(q + t, name) == [q[0]] + Replace(q[1..] + t, name)
  {
    var s := q + t;
    assert s[0] == q[0] && s[1..] == q[1..] + t;
    ReplaceCopies(s, name);
  }

  /** One unfolding of the replacement where no body match begins at s or after its
      first character. */
  lemma ReplaceCopies(s: string, name: string)
    requires s != [] && !ParamStart(s, name) && !ParamStart(s[1..], name)
    ensures Replace(s, name) == [s[0]] + Replace(s[1..], name)
  {
  }

  /** Text in which the pattern matches nowhere, followed by a separator or the end, is
      copied as it is. */
  lemma {:induction false} CopyPrefix(q: string, t: string, name: string)
    requires SepFree(name)
    requires t == [] || IsSep(t[0])
    requires Clear(q, name)
    ensures Replace(q + t, name) == q + Replace(t, name)
    decreases |q|
  {
    if q == [] {
      assert q + t == t;
    } else {
      CopyStep(q, t, name);
      CopyPrefix(q[1..], t, name);
      ConsAppend(q, Replace(t, name));
    }
  }

  /** Where the pattern matches nowhere, removal only strips a trailing separator. */
  lemma RemoveAbsentParam(q: string, name: string)
    requires SepFree(name)
    requires !ContainsParam(q, name)
    ensures RemoveParam(q, name) == StripTrailingSep(q)
  {
    ClearIff(q, name);
    CopyPrefix(q, [], name);
    assert q + [] == q;
  }

  /** Where the pattern matches, the replacement deletes at least one `name=value` body. */
  lemma {:induction false} ReplaceShrinks(s: string, name: string)
    requires ContainsParam(s, name)
    ensures |Replace(s, name)| < |s|
    decreases |s|
  {
    if IsSep(s[0]) && ParamStart(s[1..], name) {
    } else if ParamStart(s, name) {
    } else {
      var i: nat :| ParamAt(s, name, i);
      assert i != 0;
      assert s[1..][i - 1..] == s[i..];
      assert ParamAt(s[1..], name, i - 1);
      ReplaceShrinks(s[1..], name);
    }
  }

  /** The pairs of a query that survive removal of `name`, in their original order. */
  function Kept(ps: seq<string>, name: string): (r: seq<string>)
    ensures |r| <= |ps|
    ensures forall k :: 0 <= k < |r| ==> r[k] in ps && !ParamStart(r[k], name)
  {
    if ps == [] then []
    else (if ParamStart(ps[0], name) then [] else [ps[0]]) + Kept(ps[1..], name)
  }

  /** What the replacement leaves of the pairs `ps` joined by "&": the kept pairs with
      their "&", and a dangling "&" when a removed pair ends the query. */
  function Remains(ps: seq<string>, name: string): string {
    if ps == [] then ""
    else if ParamStart(ps[0], name) then Remains(ps[1..], name)
    else ps[0] + (if |ps| == 1 then "" else "&" + Remains(ps[1..], name))
  }

  /** A well-formed query body: non-empty pairs without separators, each either a pair
      for `name` or one in which the pattern matches nowhere. */
  predicate PairsOk(ps: seq<string>, name: string) {
    forall k :: 0 <= k < |ps| ==> ps[k] != [] && SepFree(ps[k]) && (ParamStart(ps[k], name) || !ContainsParam(ps[k], name))
  }

  lemma JoinHead(ps: seq<string>)
    requires |ps| > 1
    ensures Text.Join(ps, "&") == ps[0] + ("&" + Text.Join(ps[1..], "&"))
  {
    assert ps[0] + "&" + Text.Join(ps[1..], "&") == ps[0] + ("&" + Text.Join(ps[1..], "&"));
  }

  /** The pairs as a first pair and what follows it. */
  lemma JoinFirst(ps: seq<string>)
    requires |ps| > 0
    ensures Text.Join(ps, "&") == ps[0] + (if |ps| == 1 then "" else "&" + Text.Join(ps[1..], "&"))
  {
    if |ps| == 1 {
      assert ps[0] + "" == ps[0];
    } else {
      JoinHead(ps);
    }
  }

  lemma SepThenPairs(c: char, ps: seq<string>, name: string)
    requires IsSep(c) && SepFree(name) && PairsOk(ps, name)
    ensures Replace([c] + Text.Join(ps, "&"), name) == [c] + Replace(Text.Join(ps, "&"), name)
  {
    var j := Text.Join(ps, "&");
    var s := [c] + j;
    assert s[1..] == j;
    NoStartAtSep(s, name);
    if ps != [] {
      assert ps[0] != [] && SepFree(ps[0]);
      JoinFirst(ps);
      assert j[0] == ps[0][0];
    }
  }

  /** Where a match begins with the name, the replacement drops it. */
  lemma SkipStep(s: string, name: string)
    requires s != [] && !IsSep(s[0]) && ParamStart(s, name)
    ensures Replace(s, name) == Replace(s[MatchLen(s, name)..], name)
  {
  }

  lemma DropPair(p: string, r: string, k: nat)
    requires k == (if r == [] then 0 else 1) && k <= |r|
    ensures (p + r)[|p| + k..] == r[k..]
  {
  }

  lemma ReplaceNamedPair(ps: seq<string>, name: string)
    requires SepFree(name) && PairsOk(ps, name)
    requires |ps| > 0 && ParamStart(ps[0], name)
    ensures Replace(Text.Join(ps, "&"), name) == Replace(Text.Join(ps[1..], "&"), name)
  {
    var p := ps[0];
    var r := if |ps| == 1 then "" else "&" + Text.Join(ps[1..], "&");
    JoinFirst(ps);
    MatchLenOfPair(p, r, name);
    assert (p + r)[0] == p[0];
    SkipStep(p + r, name);
    DropPair(p, r, if r == [] then 0 else 1);
    if |ps| == 1 {
      assert Text.Join(ps[1..], "&") == "";
    } else {
      assert r[1..] == Text.Join(ps[1..], "&");
    }
  }

  lemma ReplaceKeptPair(ps: seq<string>, name: string)
    requires SepFree(name) && PairsOk(ps, name)
    requires |ps| > 0 && !ParamStart(ps[0], name)
    ensures Replace(Text.Join(ps, "&"), name) ==
      ps[0] + (if |ps| == 1 then "" else "&" + Replace(Text.Join(ps[1..], "&"), name))
  {
    var p := ps[0];
    var r := if |ps| == 1 then "" else "&" + Text.Join(ps[1..], "&");
    JoinFirst(ps);
    ClearIff(p, name);
    CopyPrefix(p, r, name);
    if |ps| == 1 {
      assert Replace(r, name) == "";
    } else {
      assert PairsOk(ps[1..], name);
      SepThenPairs('&', ps[1..], name);
    }
  }

  lemma {:induction false} ReplacePairs(ps: seq<string>, name: string)
    requires SepFree(name) && PairsOk(ps, name)
    ensures Replace(Text.Join(ps, "&"), name) == Remains(ps, name)
    decreases |ps|
  {
    if ps != [] {
      assert PairsOk(ps[1..], name);
      ReplacePairs(ps[1..], name);
      if ParamStart(ps[0], name) {
        ReplaceNamedPair(ps, name);
      } else {
        ReplaceKeptPair(ps, name);
      }
    }
  }

  lemma KeptStep(ps: seq<string>, name: string)
    requires |ps| > 0
    ensures Kept(ps, name) == (if ParamStart(ps[0], name) then [] else [ps[0]]) + Kept(ps[1..], name)
  {
  }

  lemma JoinCons(p: string, k: seq<string>)
    requires k != []
    ensures Text.Join([p] + k, "&") == p + ("&" + Text.Join(k, "&"))
    ensures Text.Join([p] + k, "&") + "&" == p + ("&" + (Text.Join(k, "&") + "&"))
  {
    assert ([p] + k)[1..] == k;
    JoinHead([p] + k);
  }

  lemma {:induction false} RemainsShape(ps: seq<string>, name: string)
    ensures Kept(ps, name) == [] ==> Remains(ps, name) == ""
    ensures Kept(ps, name) != [] ==>
      Remains(ps, name) == Text.Join(Kept(ps, name), "&") || Remains(ps, name) == Text.Join(Kept(ps, name), "&") + "&"
    decreases |ps|
  {
    if ps != [] {
      RemainsShape(ps[1..], name);
      KeptStep(ps, name);
      var k' := Kept(ps[1..], name);
      if !ParamStart(ps[0], name) {
        var p := ps[0];
        assert Kept(ps, name) == [p] + k';
        if |ps| == 1 {
          assert Remains(ps, name) == p + "";
          assert Text.Join([p], "&") == p;
        } else if k' == [] {
          assert Remains(ps, name) == p + ("&" + "");
          assert Text.Join([p], "&") + "&" == p + ("&" + "");
        } else {
          JoinCons(p, k');
        }
      } else {
        assert Kept(ps, name) == [] + k' == k';
      }
    }
  }

  /** Removing `name` from a query "?k1=v1&k2=v2&..." deletes exactly its pairs: the other
      pairs survive in their original order, and a query left with none becomes "". */
  lemma RemoveParamFromQuery(ps: seq<string>, name: string)
    requires SepFree(name) && PairsOk(ps, name)
    ensures RemoveParam("?" + Text.Join(ps, "&"), name) ==
      if Kept(ps, name) == [] then "" else "?" + Text.Join(Kept(ps, name), "&")
  {
    SepThenPairs('?', ps, name);
    ReplacePairs(ps, name);
    RemainsShape(ps, name);
    var k := Kept(ps, name);
    if k == [] {
      assert "?" + Remains(ps, name) == "?";
    } else {
      KeptJoinEndsClean(ps, name);
      var j := Text.Join(k, "&");
      StripQuery(j, if Remains(ps, name) == j then "" else "&");
      assert j + "" == j;
    }
  }

  /** The search string of a list of `name=value` pairs: "" for none, else "?" and the
      pairs joined by "&". */
  function QueryOf(ps: seq<string>): string {
    if ps == [] then "" else "?" + Text.Join(ps, "&")
  }

  /** `removeParam` on the search string of well-formed pairs keeps exactly the other pairs. */
  lemma RemoveFromPairs(ps: seq<string>, name: string)
    requires SepFree(name) && PairsOk(ps, name)
    ensures RemoveParam(QueryOf(ps), name) == QueryOf(Kept(ps, name))
  {
    if ps != [] {
      RemoveParamFromQuery(ps, name);
    }
  }

  /** The search string of well-formed pairs ends with no separator, so only a present
      parameter changes it under `removeParam`. */
  lemma RemoveAbsentFromPairs(ps: seq<string>, name: string)
    requires SepFree(name) && PairsOk(ps, name) && !ContainsParam(QueryOf(ps), name)
    ensures QueryOf(Kept(ps, name)) == QueryOf(ps)
  {
    RemoveFromPairs(ps, name);
    RemoveAbsentParam(QueryOf(ps), name);
    if ps != [] {
      JoinLast(ps, "&");
      var j := Text.Join(ps, "&");
      assert ("?" + j)[|"?" + j| - 1] == j[|j| - 1];
    }
  }

  /** Pairs none of which holds the pattern give a search string that does not hold it. */
  lemma NoneInPairs(ps: seq<string>, name: string)
    requires SepFree(name)
    requires forall k :: 0 <= k < |ps| ==> ps[k] != [] && SepFree(ps[k]) && !ContainsParam(ps[k], name)
    ensures !ContainsParam(QueryOf(ps), name)
  {
    if ps != [] {
      ClearJoin(ps, name);
      var j := Text.Join(ps, "&");
      NoStartAtSep("?" + j, name);
      assert ("?" + j)[1..] == j;
      ClearIff("?" + j, name);
    }
  }

  lemma {:induction false} ClearJoin(ps: seq<string>, name: string)
    requires SepFree(name) && ps != []
    requires forall k :: 0 <= k < |ps| ==> ps[k] != [] && SepFree(ps[k]) && !ContainsParam(ps[k], name)
    ensures Clear(Text.Join(ps, "&"), name)
    decreases |ps|
  {
    ClearIff(ps[0], name);
    if |ps| > 1 {
      ClearJoin(ps[1..], name);
      var j := Text.Join(ps[1..], "&");
      NoStartAtSep("&" + j, name);
      assert ("&" + j)[1..] == j;
      ClearThenSep(ps[0], "&" + j, name);
      JoinHead(ps);
    }
  }

  /** The kept pairs, joined, end with a character that is not a separator. */
  lemma KeptJoinEndsClean(ps: seq<string>, name: string)
    requires PairsOk(ps, name) && Kept(ps, name) != []
    ensures var j := Text.Join(Kept(ps, name), "&"); j != [] && !IsSep(j[|j| - 1])
  {
    var k := Kept(ps, name);
    var last := k[|k| - 1];
    assert last in ps;
    assert last != [] && SepFree(last);
    JoinLast(k, "&");
  }

  /** "?" and a body that ends cleanly, with or without one trailing "&", strips to "?" and
      that body. */
  lemma StripQuery(j: string, t: string)
    requires j != [] && !IsSep(j[|j| - 1]) && (t == "" || t == "&")
    ensures StripTrailingSep("?" + (j + t)) == "?" + j
  {
    if t == "" {
      assert "?" + (j + t) == "?" + j;
    } else {
      assert "?" + (j + t) == ("?" + j) + "&";
    }
  }

  lemma {:induction false} JoinLast(parts: seq<string>, sep: string)
    requires |parts| > 0 && parts[|parts| - 1] != []
    ensures var j := Text.Join(parts, sep); |j| > 0 && j[|j| - 1] == parts[|parts| - 1][|parts[|parts| - 1]| - 1]
    decreases |parts|
  {
    if |parts| > 1 {
      JoinLast(parts[1..], sep);
    }
  }

  /** The separator `addParam` puts before the new pair. */
  function AddSep(q: string): (c: char)
    ensures IsSep(c)
  {
    if q == "" then '?' else '&'
  }

  lemma AddedForm(q: string, name: string, value: ParamValue)
    requires !value.NullValue?
    ensures AddParam(q, name, value) == q + ([AddSep(q)] + (name + "=" + ValueText(value)))
  {
  }

  /** A pair `name=v` with a non-empty value free of separators is one whole match whose
      value is v. */
  lemma PairOf(name: string, v: string)
    requires SepFree(name) && v != [] && SepFree(v)
    ensures var u := name + "=" + v;
      SepFree(u) && ParamStart(u, name) && u[|name| + 1..] == v
  {
    var u := name + "=" + v;
    assert u[..|name|] == name && u[|name|] == '=' && u[|name| + 1] == v[0];
    forall i | 0 <= i < |u| ensures !IsSep(u[i]) {
      if i < |name| {
        assert u[i] == name[i];
      } else if i > |name| {
        assert u[i] == v[i - |name| - 1];
      }
    }
  }

  /** Appending text that begins with a separator creates no match that begins inside
      a query without one. */
  lemma NoEarlierParam(q: string, t: string, name: string, i: nat)
    requires SepFree(name) && (t == [] || IsSep(t[0]))
    requires !ContainsParam(q, name) && i <= |q|
    ensures !ParamAt(q + t, name, i)
  {
    assert (q + t)[i..] == q[i..] + t;
    StartWithin(q[i..], t, name);
    assert !ParamAt(q, name, i);
  }

  lemma SuffixOfAppend(q: string, c: char, u: string)
    ensures (q + ([c] + u))[|q| + 1..] == u
  {
  }

  /** After `addParam` of a non-empty value without separators, `getParam` reads that value
      back, provided the query did not already hold the parameter. */
  lemma GetAddedParam(q: string, name: string, value: ParamValue)
    requires SepFree(name) && !ContainsParam(q, name)
    requires !value.NullValue? && ValueText(value) != [] && SepFree(ValueText(value))
    ensures GetParam(AddParam(q, name, value), name) == Some(ValueText(value))
  {
    var v := ValueText(value);
    var u := name + "=" + v;
    var t := [AddSep(q)] + u;
    var s := q + t;
    AddedForm(q, name, value);
    PairOf(name, v);
    forall i | 0 <= i <= |q| ensures !ParamAt(s, name, i) {
      NoEarlierParam(q, t, name, i);
    }
    SuffixOfAppend(q, AddSep(q), u);
    assert ParamAt(s, name, |q| + 1);
    var f := FirstParam(s, name, 0);
    assert f == Some(|q| + 1);
    assert s[|q| + 1 + |name| + 1..] == v;
    ValueRunOf(v, []);
    assert v + [] == v;
  }

  /** In a query without the parameter, followed by a separator, a pair `name=v` and text
      that is empty or begins with a separator, `getParam` reads v. */
  lemma GetParamAfter(q: string, c: char, v: string, rest: string, name: string)
    requires SepFree(name) && IsSep(c) && !ContainsParam(q, name)
    requires v != [] && SepFree(v) && (rest == [] || IsSep(rest[0]))
    ensures GetParam(q + [c] + name + "=" + v + rest, name) == Some(v)
  {
    var u := name + "=" + v;
    var t := [c] + (u + rest);
    var s := q + t;
    PairOf(name, v);
    MatchLenOfPair(u, rest, name);
    assert t[1..] == u + rest;
    FirstPairAfter(q, t, |q| + 1, name);
    assert s[|q| + 1..] == u + rest;
    ValueOfPair(s, |q| + 1, u, rest, name, v);
    assert GetParam(s, name) == Some(v);
    Regroup(q, c, name, v, rest);
  }

  lemma Regroup(q: string, c: char, name: string, v: string, rest: string)
    ensures q + [c] + name + "=" + v + rest == q + ([c] + ((name + "=" + v) + rest))
  {
    var u := name + "=" + v;
    calc {
      q + [c] + name + "=" + v + rest;
      (q + [c]) + u + rest;
      q + ([c] + u) + rest;
      q + (([c] + u) + rest);
      q + ([c] + (u + rest));
    }
  }

  /** The same with the separator, the name and "=" given as one key such as "&code=". */
  lemma GetParamAfterKey(q: string, key: string, v: string, rest: string, name: string)
    requires SepFree(name) && key != [] && key == [key[0]] + name + "=" && IsSep(key[0]) && !ContainsParam(q, name)
    requires v != [] && SepFree(v) && (rest == [] || IsSep(rest[0]))
    ensures GetParam(q + key + v + rest, name) == Some(v)
  {
    GetParamAfter(q, key[0], v, rest, name);
    KeyRegroup(q, key[0], name, key, v, rest);
  }

  lemma KeyRegroup(q: string, c: char, name: string, key: string, v: string, rest: string)
    requires key == [c] + name + "="
    ensures q + [c] + name + "=" + v + rest == q + key + v + rest
  {
    assert q + [c] + name + "=" == q + ([c] + name + "=");
  }

  /** Where a body match begins at index k just after a parameter-free query q, it is the
      leftmost one. */
  lemma FirstPairAfter(q: string, t: string, k: nat, name: string)
    requires SepFree(name) && t != [] && IsSep(t[0]) && !ContainsParam(q, name)
    requires k == |q| + 1 && ParamStart(t[1..], name)
    ensures FirstParam(q + t, name, 0) == Some(k)
  {
    var s := q + t;
    forall i | 0 <= i <= |q| ensures !ParamAt(s, name, i) {
      NoEarlierParam(q, t, name, i);
    }
    assert s[k..] == t[1..];
    assert ParamAt(s, name, k);
  }

  /** The value read at index k where the text from k on is a pair `name=v` and then text
      that is empty or begins with a separator. */
  lemma ValueOfPair(s: string, k: nat, u: string, rest: string, name: string, v: string)
    requires k <= |s| && s[k..] == u + rest && (rest == [] || IsSep(rest[0]))
    requires u == name + "=" + v && SepFree(v) && ParamStart(u + rest, name)
    ensures ParamAt(s, name, k) && ValueAt(s, name, k) == v
  {
    assert s[k + |name| + 1..] == v + rest;
    ValueRunOf(v, rest);
    assert (v + rest)[..|v|] == v;
  }

  /** Text none of whose characters begins the name, followed by text in which the pattern
      matches nowhere, still holds no match. */
  lemma {:induction false} ClearConcat(x: string, y: string, name: string)
    requires name != [] && name[0] !in x && Clear(y, name)
    ensures Clear(x + y, name)
    decreases |x|
  {
    if x == [] {
      assert x + y == y;
    } else {
      var s := x + y;
      assert s[0] == x[0];
      assert s[1..] == x[1..] + y;
      ClearConcat(x[1..], y, name);
    }
  }

  /** Text without "=" holds no match. */
  lemma {:induction false} ClearWithoutEquals(x: string, name: string)
    requires '=' !in x
    ensures Clear(x, name)
    decreases |x|
  {
    if |name| < |x| {
      assert x[|name|] in x;
    }
    if x != [] {
      assert forall c :: c in x[1..] ==> c in x;
      ClearWithoutEquals(x[1..], name);
    }
  }

  /** Two texts in which the pattern matches nowhere, the second empty or beginning with a
      separator, hold no match together. */
  lemma {:induction false} ClearThenSep(x: string, t: string, name: string)
    requires SepFree(name) && Clear(x, name) && Clear(t, name) && (t == [] || IsSep(t[0]))
    ensures Clear(x + t, name)
    decreases |x|
  {
    if x == [] {
      assert x + t == t;
    } else {
      NoStartAcross(x, t, name);
      assert (x + t)[1..] == x[1..] + t;
      ClearThenSep(x[1..], t, name);
    }
  }

  /** Appending text keeps every match: a body match needs only the characters it covers. */
  lemma ContainsAppend(q: string, t: string, name: string)
    requires ContainsParam(q, name)
    ensures ContainsParam(q + t, name)
  {
    var i :| ParamAt(q, name, i);
    assert (q + t)[i..] == q[i..] + t;
    assert (q[i..] + t)[..|name|] == q[i..][..|name|];
    assert ParamAt(q + t, name, i);
  }

  lemma {:induction false} ValueRunAppend(x: string, t: string)
    requires t == [] || IsSep(t[0])
    ensures ValueRun(x + t) == ValueRun(x)
    decreases |x|
  {
    if x == [] {
      assert x + t == t;
    } else {
      assert (x + t)[0] == x[0];
      assert (x + t)[1..] == x[1..] + t;
      ValueRunAppend(x[1..], t);
    }
  }

  /** Text that is empty or begins with a separator, appended to a query that holds the
      parameter, leaves the value `getParam` reads unchanged. */
  lemma GetParamAppend(q: string, t: string, name: string)
    requires SepFree(name) && (t == [] || IsSep(t[0])) && ContainsParam(q, name)
    ensures GetParam(q + t, name) == GetParam(q, name)
  {
    var i := FirstParam(q, name, 0).value;
    FirstParamAppend(q, t, name, i);
    ValueAtAppend(q, t, name, i);
  }

  lemma FirstParamAppend(q: string, t: string, name: string, i: nat)
    requires SepFree(name) && (t == [] || IsSep(t[0])) && FirstParam(q, name, 0) == Some(i)
    ensures FirstParam(q + t, name, 0) == Some(i)
  {
    var s := q + t;
    forall j | 0 <= j < i ensures !ParamAt(s, name, j) {
      assert !ParamAt(q, name, j);
      assert s[j..] == q[j..] + t;
      StartWithin(q[j..], t, name);
    }
    assert s[i..] == q[i..] + t;
    assert (q[i..] + t)[..|name|] == q[i..][..|name|];
    assert ParamAt(s, name, i);
  }

  lemma ValueAtAppend(q: string, t: string, name: string, i: nat)
    requires (t == [] || IsSep(t[0])) && ParamAt(q, name, i)
    ensures ParamAt(q + t, name, i) && ValueAt(q + t, name, i) == ValueAt(q, name, i)
  {
    var s := q + t;
    assert s[i..] == q[i..] + t;
    assert (q[i..] + t)[..|name|] == q[i..][..|name|];
    var x := q[i + |name| + 1..];
    assert s[i + |name| + 1..] == x + t;
    ValueRunAppend(x, t);
    assert (x + t)[..ValueRun(x)] == x[..ValueRun(x)];
  }

  /** `addParam` keeps the value of a parameter the query already holds. */
  lemma AddKeepsParam(q: string, name: string, added: string, value: ParamValue)
    requires SepFree(name) && ContainsParam(q, name)
    ensures GetParam(AddParam(q, added, value), name) == GetParam(q, name)
  {
    if !value.NullValue? {
      AddedForm(q, added, value);
      GetParamAppend(q, [AddSep(q)] + (added + "=" + ValueText(value)), name);
    }
  }

  lemma SepAndPair(c: char, u: string, name: string)
    requires IsSep(c) && SepFree(u) && ParamStart(u, name)
    ensures Replace([c] + u, name) == [c]
  {
    assert ([c] + u)[1..] == u;
    MatchLenOfPair(u, [], name);
    assert u + [] == u;
  }

  lemma StripAppended(q: string, c: char)
    requires IsSep(c)
    ensures StripTrailingSep(q + [c]) == q
  {
    assert (q + [c])[..|q|] == q;
  }

  /** Removing a parameter just added restores the query, provided the query did not
      already hold the parameter. */
  lemma RemoveAddedParam(q: string, name: string, value: ParamValue)
    requires SepFree(name) && !ContainsParam(q, name)
    requires !value.NullValue? && ValueText(value) != [] && SepFree(ValueText(value))
    ensures RemoveParam(AddParam(q, name, value), name) == q
  {
    var v := ValueText(value);
    var u := name + "=" + v;
    var c := AddSep(q);
    AddedForm(q, name, value);
    PairOf(name, v);
    ClearIff(q, name);
    CopyPrefix(q, [c] + u, name);
    SepAndPair(c, u, name);
    StripAppended(q, c);
  }

  /** A pair holding no underscore cannot hold the `_format` pattern. */
  lemma NoFormatWithoutUnderscore(p: string)
    requires '_' !in p
    ensures !ContainsParam(p, FormatName)
  {
    forall i | 0 <= i <= |p| ensures !ParamAt(p, FormatName, i) {
      if i < |p| {
        assert p[i] in p;
      }
    }
  }

  /** A pair whose only underscore is its first character, followed by anything but
      'f', cannot hold the `_format` pattern either. */
  lemma NoFormatAfterLeadingUnderscore(y: string)
    requires '_' !in y && (y == [] || y[0] != 'f')
    ensures !ContainsParam("_" + y, FormatName)
  {
    var p := "_" + y;
    forall i | 0 <= i <= |p| ensures !ParamAt(p, FormatName, i) {
      if 0 < i < |p| {
        assert p[i] == y[i - 1];
        assert y[i - 1] in y;
      } else if i == 0 && |p| > 1 {
        assert p[i..][1] == y[0];
      }
    }
  }

  lemma ElementsPairOk(p: string)
    requires p == "_elements=name,url"
    ensures p != [] && SepFree(p) && !ContainsParam(p, FormatName)
  {
    assert p == "_" + "elements=name,url";
    NoFormatAfterLeadingUnderscore("elements=name,url");
  }

  lemma BelowPairOk(p: string)
    requires p == "url:below=http://snomed.info"
    ensures p != [] && SepFree(p) && !ContainsParam(p, FormatName)
  {
    NoFormatWithoutUnderscore(p);
  }

  lemma ElementsLiteral()
    ensures "?" + ("_elements=name,url" + "&" + "url:below=http://snomed.info")
      == "?_elements=name,url&url:below=http://snomed.info"
  {
    var a, b := "_elements=name,url", "url:below=http://snomed.info";
    assert "?" + (a + "&" + b) == ("?" + a + "&") + b;
    ElementsHead();
    ElementsTail();
  }

  lemma ElementsHead()
    ensures "?" + "_elements=name,url" + "&" == "?_elements=name,url&"
  {
  }

  lemma ElementsTail()
    ensures "?_elements=name,url&" + "url:below=http://snomed.info"
      == "?_elements=name,url&url:below=http://snomed.info"
  {
    var h := "?_elements=name,url&";
    assert "url:below=http://snomed.info" == "url:below=" + "http://snomed.info";
    assert h + ("url:below=" + "http://snomed.info") == (h + "url:below=") + "http://snomed.info";
    ElementsMiddle();
  }

  lemma ElementsMiddle()
    ensures ("?_elements=name,url&" + "url:below=") + "http://snomed.info"
      == "?_elements=name,url&url:below=http://snomed.info"
  {
    assert "?_elements=name,url&" + "url:below=" == "?_elements=name,url&url:below=";
  }

  lemma FormatNameSepFree()
    ensures SepFree(FormatName)
  {
  }

  lemma TwoPairsClear(a: string, b: string, name: string)
    requires SepFree(name)
    requires a != [] && SepFree(a) && !ContainsParam(a, name)
    requires b != [] && SepFree(b) && !ContainsParam(b, name)
    ensures !ContainsParam("?" + (a + "&" + b), name)
  {
    var ps := [a, b];
    assert ps[1..] == [b];
    assert Text.Join(ps, "&") == a + "&" + b;
    forall k | 0 <= k < |ps| ensures ps[k] != [] && SepFree(ps[k]) && !ContainsParam(ps[k], name) {
      if k == 1 { assert ps[k] == b; }
    }
    NoneInPairs(ps, name);
  }

  /** One of the falsy expectations of common.test.js whose query does hold an
      underscore. */
  lemma ElementsQueryHasNoFormat(q: string)
    requires q == "?_elements=name,url&url:below=http://snomed.info"
    ensures !ContainsFormatParam(q)
  {
    var a, b := "_elements=name,url", "url:below=http://snomed.info";
    ElementsPairOk(a);
    BelowPairOk(b);
    FormatNameSepFree();
    TwoPairsClear(a, b, FormatName);
    ElementsLiteral();
  }

  lemma ExamplePairs(ps: seq<string>)
    requires ps == ["_format=html", "name:contains=edu"]
    ensures PairsOk(ps, FormatName)
  {
    FormatPairOk(ps[0]);
    OtherPairOk(ps[1]);
  }

  lemma FormatPairOk(p: string)
    requires p == "_format=html"
    ensures p != [] && SepFree(p) && ParamStart(p, FormatName)
  {
    assert p[..|FormatName|] == FormatName;
  }

  lemma OtherPairOk(p: string)
    requires p == "name:contains=edu"
    ensures p != [] && SepFree(p) && !ContainsParam(p, FormatName)
  {
    NoFormatWithoutUnderscore(p);
  }

  lemma ExampleKept(ps: seq<string>)
    requires ps == ["_format=html", "name:contains=edu"]
    ensures Kept(ps, FormatName) == [ps[1]]
  {
    FormatPairOk(ps[0]);
    OtherPairOk(ps[1]);
    assert ps[1][0..] == ps[1];
    assert !ParamAt(ps[1], FormatName, 0);
    assert ps[1..] == [ps[1]] && ps[1..][1..] == [];
    KeptStep(ps, FormatName);
    KeptStep(ps[1..], FormatName);
  }

  lemma ExampleQueryText(ps: seq<string>)
    requires ps == ["_format=html", "name:contains=edu"]
    ensures "?" + Text.Join(ps, "&") == "?_format=html&name:contains=edu"
    ensures "?" + Text.Join([ps[1]], "&") == "?name:contains=edu"
  {
    assert ps[1..] == [ps[1]];
    assert Text.Join(ps, "&") == ps[0] + "&" + ps[1];
    QueryLiteral();
  }

  lemma QueryLiteral()
    ensures "?" + ("_format=html" + "&" + "name:contains=edu") == "?_format=html&name:contains=edu"
  {
  }

  /** One of the removal tests of common.test.js. */
  lemma RemoveFormatExample(q: string)
    requires q == "?_format=html&name:contains=edu"
    ensures RemoveFormatParam(q) == "?name:contains=edu"
  {
    var ps := ["_format=html", "name:contains=edu"];
    ExamplePairs(ps);
    ExampleKept(ps);
    ExampleQueryText(ps);
    RemoveParamFromQuery(ps, FormatName);
  }
}
