/** JavaScript values as the viewer sees them after JSON.parse, with the language's
    truthiness, property reads and string conversion. */
module JsValues {
  import opened Wrappers
  import Text

  /** A value produced by JSON.parse. Numbers are modelled as integers. */
  datatype JValue =
    | JNull
    | JBool(b: bool)
    | JNum(n: int)
    | JStr(s: string)
    | JArr(items: seq<JValue>)
    | JObj(props: map<string, JValue>)

  /** A value held by a variable or read from a property: `None` is `undefined`. */
  type JsVal = Option<JValue>

  /** JavaScript truthiness: undefined, null, false, 0 and "" are falsy. */
  predicate Truthy(v: JsVal) {
    match v
    case None => false
    case Some(j) =>
      match j
      case JNull => false
      case JBool(b) => b
      case JNum(n) => n != 0
      case JStr(s) => s != ""
      case _ => true
    }

  /** The effect of `if (x) { target = x }` on a target that starts unset. */
  function KeepTruthy(v: JsVal): (r: JsVal)
    ensures r.Some? <==> Truthy(v)
    ensures r.Some? ==> r == v
  {
    if Truthy(v) then v else None
  }

  /** Reading property `key` of a value that is neither null nor undefined. Only objects carry
      the FHIR element names read by the viewer; strings, numbers, booleans and arrays yield
      undefined for them. */
  function Get(v: JValue, key: string): (r: JsVal)
    requires v != JNull
    ensures r.Some? <==> v.JObj? && key in v.props
  {
    if v.JObj? && key in v.props then Some(v.props[key]) else None
  }

  /** The message V8 gives the TypeError thrown by reading a property of undefined or null. */
  function ReadFault(v: JsVal, key: string): string
    requires v.None? || v == Some(JNull)
  {
    "Cannot read properties of " + (if v.None? then "undefined" else "null") + " (reading '" + key + "')"
  }

  /** Reading property `key` of any value: undefined and null throw a TypeError (its message). */
  function Read(v: JsVal, key: string): (r: Result<JsVal, string>)
    ensures r.Err? <==> v.None? || v == Some(JNull)
    ensures r.Ok? ==> r.value == Get(v.value, key)
  {
    if v.None? || v == Some(JNull) then Err(ReadFault(v, key)) else Ok(Get(v.value, key))
  }

  /** lodash `pick(v, keys)`: the listed own keys of an object; any other value yields {}. */
  function Pick(v: JsVal, keys: set<string>): (r: map<string, JValue>)
    ensures r.Keys == (if v.Some? && v.value.JObj? then v.value.props.Keys * keys else {})
    ensures forall k :: k in r ==> r[k] == v.value.props[k]
  {
    if v.Some? && v.value.JObj? then map k | k in v.value.props && k in keys :: v.value.props[k]
    else map[]
  }

  /** Decimal digits of a natural number. */
  function NatToString(n: nat): (r: string)
    ensures |r| > 0
    ensures forall i :: 0 <= i < |r| ==> '0' <= r[i] <= '9'
  {
    var d := ['0' + (n % 10) as char];
    if n < 10 then d else NatToString(n / 10) + d
  }

  /** Number-to-string conversion of an integer. */
  function IntToString(n: int): string {
    if n < 0 then "-" + NatToString(-n) else NatToString(n)
  }

  /** String(v) — the conversion template literals and Error messages apply. */
  function ToJsString(v: JsVal): string {
    match v
    case None => "undefined"
    case Some(j) => JsonToString(j)
  }

  function JsonToString(j: JValue): string
    decreases j, 0
  {
    match j
    case JNull => "null"
    case JBool(b) => if b then "true" else "false"
    case JNum(n) => IntToString(n)
    case JStr(s) => s
    case JArr(items) => Text.Join(seq(|items|, i requires 0 <= i < |items| => ElementString(items[i])), ",")
    case JObj(_) => "[object Object]"
  }

  /** Array.prototype.join renders null elements as the empty string. */
  function ElementString(j: JValue): string
    decreases j, 1
  {
    if j == JNull then "" else JsonToString(j)
  }
}
