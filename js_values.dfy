/**
 * JavaScript's view of JSON values: truthiness, property access that may
 * find nothing (`undefined`), and the string a value becomes when it is
 * concatenated to a string.
 */
module JsValues {
  import opened Wrappers
  import opened Strs
  import opened Json

  /** The error of a property read or a method call on the wrong kind of value. */
  const TypeError := "TypeError"

  /** The error of a recursion that overflows the stack. */
  const RangeError := "RangeError"

  /** JavaScript truthiness of a JSON value: objects and arrays are truthy. */
  predicate IsTruthy(v: Json)
  {
    match v
    case JNull => false
    case JBool(b) => b
    case JInt(i) => i != 0
    case JStr(s) => s != []
    case _ => true
  }

  /** `undefined` or a value: a property that may be missing. */
  predicate IsTruthyOpt(v: Option<Json>)
  {
    v.Some? && IsTruthy(v.value)
  }

  /** `v[key]` on a value that is not null: an object's member, nothing on any other value. */
  function Prop(v: Json, key: string): (r: Option<Json>)
    ensures v.JObj? && key in v.fields ==> r == Some(v.fields[key])
    ensures !v.JObj? ==> r.None?
  {
    if v.JObj? && key in v.fields then Some(v.fields[key]) else None
  }

  /** `String(v)`: what a value becomes when concatenated to a string. */
  function JsToString(v: Json): (r: string)
    ensures v.JStr? ==> r == v.s
  {
    match v
    case JNull => "null"
    case JBool(b) => if b then "true" else "false"
    case JInt(i) => IntToString(i)
    case JStr(s) => s
    case JArr(items) => ArrayToString(items)
    case JObj(_) => "[object Object]"
  }

  /** `Array.prototype.join(',')`: null elements become "". */
  function ArrayToString(items: seq<Json>): string
  {
    if items == [] then []
    else
      (if items[0].JNull? then "" else JsToString(items[0]))
      + (if |items| == 1 then "" else "," + ArrayToString(items[1..]))
  }

  /** `String(x)` for a property that may be `undefined`. */
  function OptToString(v: Option<Json>): (r: string)
    ensures v.None? ==> r == "undefined"
    ensures v.Some? ==> r == JsToString(v.value)
  {
    match v
    case None => "undefined"
    case Some(j) => JsToString(j)
  }
}
