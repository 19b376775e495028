/**
 * JavaScript values as `JSON.parse` produces them, with the two JavaScript
 * notions the modelled code applies to them: truthiness (`if (v)`, `a && b`)
 * and property access (`v.name`). Numbers are integers here: NaN and
 * fractional values are not modelled.
 */
module JsValues {

  datatype Json =
    | JUndefined
    | JNull
    | JBool(b: bool)
    | JNum(n: int)
    | JStr(s: string)
    | JArr(items: seq<Json>)
    | JObj(fields: map<string, Json>)

  /** `Boolean(v)`: false for undefined, null, false, 0 and the empty string. */
  predicate Truthy(v: Json)
  {
    match v
    case JUndefined => false
    case JNull => false
    case JBool(b) => b
    case JNum(n) => n != 0
    case JStr(s) => s != ""
    case JArr(_) => true
    case JObj(_) => true
  }

  /** `undefined` and `null`: the values on which a property access throws a TypeError. */
  predicate Nullish(v: Json)
  {
    v.JUndefined? || v.JNull?
  }

  /** `v[key]` for a value that is neither undefined nor null; a missing key reads as undefined. */
  function Get(v: Json, key: string): (r: Json)
    requires !Nullish(v)
    ensures v.JObj? && key in v.fields ==> r == v.fields[key]
    ensures !v.JObj? ==> r == JUndefined
  {
    match v
    case JObj(fields) => if key in fields then fields[key] else JUndefined
    case _ => JUndefined
  }

  /**
   * Whether `String(v)`, as a template literal applies it, throws a
   * `TypeError`. A parsed object inherits a callable `toString` unless it
   * has an own `toString` key, whose value is never callable; `valueOf` then
   * gives the object back, which is not a primitive. An array joins its
   * elements, so it throws when one of them does.
   */
  predicate ToStringThrows(v: Json)
  {
    match v
    case JObj(fields) => "toString" in fields
    case JArr(items) => exists i :: 0 <= i < |items| && ToStringThrows(items[i])
    case _ => false
  }

  /** The message of that `TypeError`. */
  const ToStringFailure := "Cannot convert object to primitive value"

  /** Only objects and arrays can throw, and both are truthy: a falsy value always formats. */
  lemma ToStringThrowsIsTruthy(v: Json)
    requires ToStringThrows(v)
    ensures Truthy(v) && (v.JObj? || v.JArr?)
  {
  }

  /** `{"toString": 0}` throws, and so does any array that holds it; a plain object does not. */
  lemma ToStringThrowsExamples(v: Json, items: seq<Json>)
    ensures ToStringThrows(JObj(map["toString" := v]))
    ensures ToStringThrows(JArr(items + [JObj(map["toString" := v])]))
    ensures !ToStringThrows(JObj(map["name" := v]))
  {
    var bad := JObj(map["toString" := v]);
    assert (items + [bad])[|items|] == bad;
  }
}
