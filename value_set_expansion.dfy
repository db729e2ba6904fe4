/** The expansion table (src/ValueSetExpansion.js): which columns the header shows and which
    cells and links each code row emits. Rows are the objects the code extractors produce. */
module ValueSetExpansionView {
  import opened Wrappers
  import opened JsValues
  import opened RestApi

  /** An extracted code: field name to value. */
  type Row = map<string, JValue>

  /** The code fields a column may show, in their preferred order. */
  const CodeColumns := ["system", "code", "display", "abstract", "inactive", "version"]

  /** The keys of every row. */
  function AllKeys(codes: seq<Row>): (r: set<string>)
    ensures forall k :: k in r <==> exists i :: 0 <= i < |codes| && k in codes[i]
  {
    if codes == [] then {}
    else
      var r := AllKeys(codes[..|codes| - 1]) + codes[|codes| - 1].Keys;
      assert forall i :: 0 <= i < |codes| - 1 ==> codes[..|codes| - 1][i] == codes[i];
      r
  }

  /** lodash `intersection(names, keys)`: the names that are keys, in the order of `names`. */
  function Whitelisted(names: seq<string>, keys: set<string>): (r: seq<string>)
    ensures forall c :: c in r <==> c in names && c in keys
    ensures |r| <= |names|
  {
    if names == [] then []
    else (if names[0] in keys then [names[0]] else []) + Whitelisted(names[1..], keys)
  }

  /** The header loop: gather the keys of every row, then keep the code fields among them. The
      keys are gathered as a set, since the intersection looks only at membership. */
  method Columns(codes: seq<Row>) returns (columns: seq<string>)
    ensures columns == Whitelisted(CodeColumns, AllKeys(codes))
    ensures forall c :: c in columns <==> c in CodeColumns && exists i :: 0 <= i < |codes| && c in codes[i]
  {
    var keys: set<string> := {};
    for i := 0 to |codes|
      invariant keys == AllKeys(codes[..i])
    {
      assert codes[..i + 1][..i] == codes[..i];
      keys := keys + codes[i].Keys;
    }
    assert codes[..|codes|] == codes;
    columns := Whitelisted(CodeColumns, keys);
  }

  /** A table cell: text, possibly linked to a path. */
  datatype Cell = Linked(text: JValue, to: string) | Plain(text: JValue)

  /** `code[f]`: undefined when the row lacks the field. */
  function Field(code: Row, f: string): (r: JsVal)
    ensures r.Some? <==> f in code
  {
    if f in code then Some(code[f]) else None
  }

  /** The system cell: a link to the CodeSystem search when the system is truthy. */
  function SystemCell(code: Row): (r: Option<Cell>)
    ensures r.Some? <==> Truthy(Field(code, "system"))
  {
    var system := Field(code, "system");
    if Truthy(system) then Some(Linked(system.value, CodeSystemSearchPath(ToJsString(system), ""))) else None
  }

  /** The options lookupPath destructures from its third argument,
      `{ version = null, pathPrefix = '' }`. A string, number, boolean or array has neither
      property, so both defaults apply. An object supplies each member it has: its version
      counts only when truthy, and its path prefix is interpolated as `String(pathPrefix)`. */
  function DestructuredOptions(arg: JValue): (r: LookupOptions)
    ensures !arg.JObj? ==> r == DefaultLookupOptions
    ensures arg.JObj? ==>
      r.pathPrefix == (if "pathPrefix" in arg.props then ToJsString(Some(arg.props["pathPrefix"])) else "")
    ensures arg.JObj? && Truthy(Get(arg, "version")) ==> r.version == Some(ToJsString(Get(arg, "version")))
    ensures !(arg.JObj? && Truthy(Get(arg, "version"))) ==> r.version.None?
  {
    if arg.JObj? then
      var version := Get(arg, "version");
      var prefix := if "pathPrefix" in arg.props then ToJsString(Some(arg.props["pathPrefix"])) else "";
      LookupOptions(if Truthy(version) then Some(ToJsString(version)) else None, prefix)
    else DefaultLookupOptions
  }

  /** The code cell as the component writes it: `code.version` is passed where lookupPath
      expects its options object and is destructured as one. A version string has no
      `version` property, so the link of a string-versioned code carries no version. */
  function CodeCellAsWritten(code: Row): (r: Option<Cell>)
    ensures r.Some? <==> Truthy(Field(code, "code"))
    ensures r.Some? && r.value.Linked? <==> Truthy(Field(code, "code")) && Truthy(Field(code, "system"))
  {
    var c := Field(code, "code");
    var system := Field(code, "system");
    var version := Field(code, "version");
    if !Truthy(c) then None
    else if Truthy(system) && Truthy(version) then
      Some(Linked(c.value, LookupPath(ToJsString(system), ToJsString(c), DestructuredOptions(version.value))))
    else if Truthy(system) then Some(Linked(c.value, LookupPath(ToJsString(system), ToJsString(c), DefaultLookupOptions)))
    else Some(Plain(c.value))
  }

  /** The code cell with the version passed as lookupPath's `version` option: a lookup link
      when code and system are truthy, carrying the version when that is truthy too, plain
      text otherwise. */
  function CodeCell(code: Row): (r: Option<Cell>)
    ensures r.Some? <==> Truthy(Field(code, "code"))
    ensures r.Some? && r.value.Linked? <==> Truthy(Field(code, "code")) && Truthy(Field(code, "system"))
  {
    var c := Field(code, "code");
    var system := Field(code, "system");
    var version := Field(code, "version");
    if !Truthy(c) then None
    else if Truthy(system) && Truthy(version) then
      Some(Linked(c.value, LookupPath(ToJsString(system), ToJsString(c), LookupOptions(Some(ToJsString(version)), ""))))
    else if Truthy(system) then Some(Linked(c.value, LookupPath(ToJsString(system), ToJsString(c), DefaultLookupOptions)))
    else Some(Plain(c.value))
  }

  /** A plain cell for field `f` when its value is truthy. */
  function PlainCell(code: Row, f: string): (r: Option<Cell>)
    ensures r.Some? <==> Truthy(Field(code, f))
  {
    if Truthy(Field(code, f)) then Some(Plain(code[f])) else None
  }

  /** The cell list of an optional cell. */
  function Cells(c: Option<Cell>): (r: seq<Cell>)
    ensures |r| == if c.Some? then 1 else 0
  {
    if c.Some? then [c.value] else []
  }

  /** The cells of one row around a given code cell: one per code field with a truthy value,
      in column order. */
  function RowAround(code: Row, codeCell: Option<Cell>): seq<Cell> {
    Cells(SystemCell(code)) + Cells(codeCell) + Cells(PlainCell(code, "display")) +
    Cells(PlainCell(code, "abstract")) + Cells(PlainCell(code, "inactive")) + Cells(PlainCell(code, "version"))
  }

  /** The cells of one row as the component renders them, with the code cell as written. */
  function RowCells(code: Row): seq<Cell> {
    RowAround(code, CodeCellAsWritten(code))
  }

  /** The cells of one row with the corrected code cell. */
  function CorrectedRowCells(code: Row): seq<Cell> {
    RowAround(code, CodeCell(code))
  }

  /** What the component renders: an empty container without codes, else the header columns
      and the cells of each row. */
  datatype Table = EmptyContainer | CodeTable(columns: seq<string>, rows: seq<seq<Cell>>)

  /** The component's render: the header loop, then one cell list per code, built with the
      code cell as written. */
  method Render(codes: Option<seq<Row>>) returns (t: Table)
    ensures codes.None? ==> t == EmptyContainer
    ensures codes.Some? ==> t.CodeTable? && t.columns == Whitelisted(CodeColumns, AllKeys(codes.value))
    ensures codes.Some? ==> |t.rows| == |codes.value| && forall i :: 0 <= i < |t.rows| ==> t.rows[i] == RowCells(codes.value[i])
  {
    if codes.None? {
      return EmptyContainer;
    }
    var columns := Columns(codes.value);
    var rows := seq(|codes.value|, i requires 0 <= i < |codes.value| => RowCells(codes.value[i]));
    return CodeTable(columns, rows);
  }

  // ---------------------------------------------------------------------------------------
  // Properties of the table
  // ---------------------------------------------------------------------------------------

  /** The fields of a row whose values are truthy. */
  function TruthyFields(code: Row): set<string> {
    set f | f in code && Truthy(Some(code[f]))
  }

  /** A row has one cell per code field whose value is truthy. */
  lemma CellCount(code: Row)
    ensures |RowCells(code)| == |Whitelisted(CodeColumns, TruthyFields(code))|
  {
    var t := TruthyFields(code);
    RowCellsShown(code);
    ColumnsShown(t);
  }

  lemma RowCellsShown(code: Row)
    ensures var t := TruthyFields(code);
      |RowCells(code)| == Shown(t, "system") + Shown(t, "code") + Shown(t, "display") +
        Shown(t, "abstract") + Shown(t, "inactive") + Shown(t, "version")
  {
    TruthyFieldsMeaning(code);
  }

  lemma ColumnsShown(t: set<string>)
    ensures |Whitelisted(CodeColumns, t)| == Shown(t, "system") + Shown(t, "code") + Shown(t, "display") +
      Shown(t, "abstract") + Shown(t, "inactive") + Shown(t, "version")
  {
    var cs := CodeColumns;
    WhitelistedStep(cs, t);
    WhitelistedStep(cs[1..], t);
    assert cs[1..][1..] == cs[2..];
    WhitelistedStep(cs[2..], t);
    assert cs[2..][1..] == cs[3..];
    WhitelistedStep(cs[3..], t);
    assert cs[3..][1..] == cs[4..];
    WhitelistedStep(cs[4..], t);
    assert cs[4..][1..] == cs[5..];
    WhitelistedStep(cs[5..], t);
    assert cs[5..][1..] == [];
  }

  /** 1 when field `f` is among `t`, else 0. */
  function Shown(t: set<string>, f: string): nat {
    if f in t then 1 else 0
  }

  lemma TruthyFieldsMeaning(code: Row)
    ensures forall f :: Truthy(Field(code, f)) <==> f in TruthyFields(code)
  {
  }

  lemma WhitelistedStep(names: seq<string>, t: set<string>)
    requires names != []
    ensures |Whitelisted(names, t)| == Shown(t, names[0]) + |Whitelisted(names[1..], t)|
  {
  }

  /** Keeping names from a smaller key set keeps no more of them. */
  lemma {:induction false} WhitelistedMonotone(names: seq<string>, a: set<string>, b: set<string>)
    requires a <= b
    ensures |Whitelisted(names, a)| <= |Whitelisted(names, b)|
  {
    if names != [] {
      WhitelistedMonotone(names[1..], a, b);
    }
  }

  /** A name kept from the larger set but not the smaller makes the smaller list strictly
      shorter. */
  lemma {:induction false} WhitelistedStrict(names: seq<string>, a: set<string>, b: set<string>, c: string)
    requires a <= b && c in names && c in b && c !in a
    ensures |Whitelisted(names, a)| < |Whitelisted(names, b)|
  {
    if names[0] == c {
      WhitelistedMonotone(names[1..], a, b);
    } else {
      WhitelistedStrict(names[1..], a, b, c);
    }
  }

  /** Every row has at most as many cells as there are header columns. */
  lemma CellsWithinColumns(codes: seq<Row>, i: nat)
    requires i < |codes|
    ensures |RowCells(codes[i])| <= |Whitelisted(CodeColumns, AllKeys(codes))|
  {
    CellCount(codes[i]);
    WhitelistedMonotone(CodeColumns, TruthyFields(codes[i]), AllKeys(codes));
  }

  /** Cells are not padded: a row lacking a shown column, or holding a falsy value for it, has
      fewer cells than the header has columns. */
  lemma MissingFieldFewerCells(codes: seq<Row>, i: nat, c: string)
    requires i < |codes|
    requires c in Whitelisted(CodeColumns, AllKeys(codes)) && !Truthy(Field(codes[i], c))
    ensures |RowCells(codes[i])| < |Whitelisted(CodeColumns, AllKeys(codes))|
  {
    CellCount(codes[i]);
    WhitelistedStrict(CodeColumns, TruthyFields(codes[i]), AllKeys(codes), c);
  }

  /** As written, a code with system and version links to a lookup without the version. */
  lemma AsWrittenDropsVersion(code: Row, system: string, c: string, version: string)
    requires "system" in code && code["system"] == JStr(system) && system != ""
    requires "code" in code && code["code"] == JStr(c) && c != ""
    requires "version" in code && code["version"] == JStr(version) && version != ""
    ensures CodeCellAsWritten(code) == Some(Linked(JStr(c), "/CodeSystem/$lookup?system=" + system + "&code=" + c))
  {
    TextField(code, "system", system);
    TextField(code, "code", c);
    TextField(code, "version", version);
    LookupWithoutPrefix(system, c, None);
  }

  /** Whatever its type, a version that is not an object is ignored by the as-written cell:
      the link is the unversioned lookup path without prefix. */
  lemma NonObjectVersionIgnored(code: Row)
    requires Truthy(Field(code, "code")) && Truthy(Field(code, "system"))
    requires "version" in code ==> !code["version"].JObj?
    ensures CodeCellAsWritten(code) ==
      Some(Linked(code["code"], LookupPath(ToJsString(Field(code, "system")), ToJsString(Field(code, "code")), DefaultLookupOptions)))
  {
  }

  /** An object version is destructured: its `version` and `pathPrefix` members reach the
      link. */
  lemma ObjectVersionDestructured(code: Row)
    requires code == map["system" := JStr("s"), "code" := JStr("c"),
      "version" := JObj(map["version" := JStr("2"), "pathPrefix" := JStr("/p")])]
    ensures CodeCellAsWritten(code) == Some(Linked(JStr("c"), "/p/CodeSystem/$lookup?system=s&version=2&code=c"))
  {
    var arg := JObj(map["version" := JStr("2"), "pathPrefix" := JStr("/p")]);
    assert Field(code, "version") == Some(arg);
    assert DestructuredOptions(arg) == LookupOptions(Some("2"), "/p");
    assert ToJsString(Field(code, "system")) == "s" && ToJsString(Field(code, "code")) == "c";
    PrefixedLookupLiteral();
  }

  lemma PrefixedLookupLiteral()
    ensures LookupPath("s", "c", LookupOptions(Some("2"), "/p")) == "/p/CodeSystem/$lookup?system=s&version=2&code=c"
  {
    PrefixedLookupHead();
    PrefixedLookupTail();
  }

  lemma PrefixedLookupHead()
    ensures "/p" + "/CodeSystem/$lookup?system=" + "s" + "&version=" == "/p/CodeSystem/$lookup?system=s&version="
  {
  }

  lemma PrefixedLookupTail()
    ensures "/p/CodeSystem/$lookup?system=s&version=" + "2" + "&code=" + "c" == "/p/CodeSystem/$lookup?system=s&version=2&code=c"
  {
  }

  /** A non-empty string field reads as itself and is truthy. */
  lemma TextField(code: Row, f: string, v: string)
    requires f in code && code[f] == JStr(v) && v != ""
    ensures Field(code, f) == Some(JStr(v)) && ToJsString(Field(code, f)) == v && Truthy(Field(code, f))
  {
  }

  /** The lookup path with the empty path prefix. */
  lemma LookupWithoutPrefix(system: string, c: string, version: Option<string>)
    ensures PresentString(version) ==>
      LookupPath(system, c, LookupOptions(version, "")) ==
      "/CodeSystem/$lookup?system=" + system + "&version=" + version.value + "&code=" + c
    ensures !PresentString(version) ==>
      LookupPath(system, c, LookupOptions(version, "")) == "/CodeSystem/$lookup?system=" + system + "&code=" + c
  {
    assert "" + "/CodeSystem/$lookup?system=" == "/CodeSystem/$lookup?system=";
  }

  /** With the version passed as an option, the lookup link carries it between system and
      code. */
  lemma CorrectedKeepsVersion(code: Row, system: string, c: string, version: string)
    requires "system" in code && code["system"] == JStr(system) && system != ""
    requires "code" in code && code["code"] == JStr(c) && c != ""
    requires "version" in code && code["version"] == JStr(version) && version != ""
    ensures CodeCell(code) ==
      Some(Linked(JStr(c), "/CodeSystem/$lookup?system=" + system + "&version=" + version + "&code=" + c))
  {
    TextField(code, "system", system);
    TextField(code, "code", c);
    TextField(code, "version", version);
    LookupWithoutPrefix(system, c, Some(version));
  }

  /** The two code cells differ only for a code whose code, system and version are all truthy:
      every other row renders exactly as the corrected component would render it. */
  lemma CorrectionOnlyTouchesVersionedLinks(code: Row)
    requires !(Truthy(Field(code, "code")) && Truthy(Field(code, "system")) && Truthy(Field(code, "version")))
    ensures RowCells(code) == CorrectedRowCells(code)
  {
  }

  /** The corrected row has as many cells as the rendered one: the correction changes a link's
      target, never which cells appear. */
  lemma CorrectedCellCount(code: Row)
    ensures |CorrectedRowCells(code)| == |RowCells(code)|
    ensures |CorrectedRowCells(code)| == |Whitelisted(CodeColumns, TruthyFields(code))|
  {
    CellCount(code);
  }
}
