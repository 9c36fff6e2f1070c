/**
 * The JavaScript values the core handles: numbers (exact reals or NaN),
 * values parsed from JSON, `undefined`, truthiness and property reads.
 */
module JsValues {
  import opened Wrappers

  /** A JavaScript number, as an exact real, or NaN. */
  datatype Num = NaN | Val(v: real)

  /** `a + b`: NaN if either operand is. */
  function Add(a: Num, b: Num): Num {
    if a.Val? && b.Val? then Val(a.v + b.v) else NaN
  }

  /** `a - k` for a numeric literal `k`. */
  function Sub(a: Num, k: real): Num {
    if a.Val? then Val(a.v - k) else NaN
  }

  /** `a * k` for a numeric literal `k`. */
  function Mul(a: Num, k: real): Num {
    if a.Val? then Val(a.v * k) else NaN
  }

  /** `a / k` for a non-zero numeric literal `k`. */
  function Div(a: Num, k: real): Num
    requires k != 0.0
  {
    if a.Val? then Val(a.v / k) else NaN
  }

  /** A value produced by `JSON.parse`. */
  datatype JsonValue =
    | JNull
    | JBool(b: bool)
    | JNum(n: real)
    | JStr(s: string)
    | JArr(items: seq<JsonValue>)
    | JObj(fields: map<string, JsonValue>)

  /** A value the program can hold: `undefined` or a JSON value. */
  datatype JsValue = Undefined | Json(value: JsonValue)

  /** `null` as a held value. */
  const Null: JsValue := Json(JNull)

  /** JavaScript truthiness of a JSON value (JSON text cannot denote NaN). */
  predicate Truthy(v: JsonValue) {
    match v
    case JNull => false
    case JBool(b) => b
    case JNum(n) => n != 0.0
    case JStr(s) => s != ""
    case JArr(_) => true
    case JObj(_) => true
  }

  /**
   * Names read with `value.name` by the core; none of them is defined by
   * Object.prototype, Array.prototype, String.prototype, Number.prototype
   * or Boolean.prototype, and none is an array index or "length".
   */
  predicate IsPlainName(name: string) {
    name == "predictions" || name == "results"
  }

  /**
   * `v.name` for a plain name: `None` when reading it throws a TypeError
   * (only `null` among JSON values), otherwise the value read, with
   * `undefined` for a name an object does not have and for every
   * non-object value.
   */
  function Field(v: JsonValue, name: string): (r: Option<JsValue>)
    requires IsPlainName(name)
    ensures r.None? <==> v.JNull?
    ensures r.Some? && r.value.Json? ==> v.JObj? && name in v.fields && r.value.value == v.fields[name]
    ensures v.JObj? && name in v.fields ==> r == Some(Json(v.fields[name]))
  {
    match v
    case JNull => None
    case JObj(m) => if name in m then Some(Json(m[name])) else Some(Undefined)
    case _ => Some(Undefined)
  }

  /**
   * `v[0]`: `None` when it throws (on `null`); the first element of an
   * array, the first character of a string, the property "0" of an
   * object; `undefined` when there is none and on numbers and booleans.
   */
  function Index0(v: JsonValue): (r: Option<JsValue>)
    ensures r.None? <==> v.JNull?
    ensures v.JArr? && |v.items| > 0 ==> r == Some(Json(v.items[0]))
    ensures v.JArr? && |v.items| == 0 ==> r == Some(Undefined)
  {
    match v
    case JNull => None
    case JArr(s) => if |s| > 0 then Some(Json(s[0])) else Some(Undefined)
    case JStr(s) => if |s| > 0 then Some(Json(JStr([s[0]]))) else Some(Undefined)
    case JObj(m) => if "0" in m then Some(Json(m["0"])) else Some(Undefined)
    case _ => Some(Undefined)
  }

  /** How `JSON.stringify` writes a number: NaN becomes `null`. */
  function NumToJson(n: Num): (j: JsonValue)
    ensures j.JNull? <==> n.NaN?
    ensures n.Val? ==> j == JNum(n.v)
  {
    match n
    case NaN => JNull
    case Val(x) => JNum(x)
  }
}
