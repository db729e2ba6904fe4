/** The viewer's thrown values, and the message an OperationOutcome error carries. */
module ErrorTypes {
  import opened Wrappers
  import opened JsValues

  /** A thrown value: a plain `Error`, a `TypeError` raised by the runtime, or an
      `OpOutcomeError` built from the first issue of an OperationOutcome resource. */
  datatype Thrown =
    | Error(message: string)
    | TypeError(message: string)
    | OpOutcome(message: string, issue: map<string, JValue>)

  /** The value of property `key` of an issue object (undefined when absent). */
  function IssueField(issue: map<string, JValue>, key: string): (r: JsVal)
    ensures r.Some? <==> key in issue
    ensures r.Some? ==> r.value == issue[key]
  {
    if key in issue then Some(issue[key]) else None
  }

  /** True when `issue.details && issue.details.display` is truthy. */
  predicate HasDisplay(issue: map<string, JValue>) {
    var details := IssueField(issue, "details");
    Truthy(details) && Truthy(Get(details.value, "display"))
  }

  /** The message argument `OpOutcomeError` passes to `Error`: the details' display text when
      there is one, else the diagnostics (possibly undefined). */
  function IssueMessage(issue: map<string, JValue>): (r: JsVal)
    ensures HasDisplay(issue) ==> r == Some(issue["details"].props["display"])
    ensures !HasDisplay(issue) ==> r == IssueField(issue, "diagnostics")
  {
    var details := IssueField(issue, "details");
    if Truthy(details) && Truthy(Get(details.value, "display")) then Get(details.value, "display")
    else IssueField(issue, "diagnostics")
  }

  /** The `message` of `new Error(m)`: the empty string for undefined, else String(m). */
  function ErrorMessage(m: JsVal): (r: string)
    ensures m.None? ==> r == ""
    ensures m.Some? && m.value.JStr? ==> r == m.value.s
    ensures m == Some(JNull) ==> r == "null"
  {
    if m.None? then "" else ToJsString(m)
  }

  /** `new OpOutcomeError(issue)`: the message chosen from the issue, the issue kept unchanged. */
  function NewOpOutcomeError(issue: map<string, JValue>): (r: Thrown)
    ensures r.OpOutcome? && r.issue == issue
    ensures r.message == ErrorMessage(IssueMessage(issue))
  {
    OpOutcome(ErrorMessage(IssueMessage(issue)), issue)
  }

  /** An issue whose fields are all strings or null, as the XML detector builds them, never has
      display text: its error message is the diagnostics string, or "" when there is none. */
  lemma XmlIssueMessage(issue: map<string, JValue>)
    requires forall k :: k in issue ==> issue[k] == JNull || issue[k].JStr?
    ensures !HasDisplay(issue)
    ensures NewOpOutcomeError(issue).message ==
      if "diagnostics" !in issue then ""
      else if issue["diagnostics"] == JNull then "null"
      else issue["diagnostics"].s
  {
    if "details" in issue {
      assert issue["details"] == JNull || issue["details"].JStr?;
    }
  }

  /** A JSON issue whose details carry a non-empty display string is reported by that string,
      whatever its diagnostics say. */
  lemma DisplayWins(issue: map<string, JValue>, display: string, props: map<string, JValue>)
    requires "details" in issue && issue["details"] == JObj(props)
    requires "display" in props && props["display"] == JStr(display) && display != ""
    ensures NewOpOutcomeError(issue).message == display
  {
  }
}
