/**
 * The values `JSON.parse` produces, with the JavaScript operations the
 * server applies to them: truthiness (`||`, `?:`, `if`), reading a named
 * property (`userData.customization`) and converting to text in a template
 * literal (`${userData.bio}`).
 */
module JsValue {
  import opened Wrappers

  /** A parsed JSON value. Numbers are kept as exact reals. */
  datatype Json =
    | JNull
    | JBool(b: bool)
    | JNum(n: real)
    | JStr(s: string)
    | JArr(items: seq<Json>)
    | JObj(members: map<string, Json>)

  /** JavaScript truthiness of a parsed value: `null`, `false`, `0` and `''` are falsy. */
  predicate IsTruthy(v: Json) {
    match v
    case JNull => false
    case JBool(b) => b
    case JNum(n) => n != 0.0
    case JStr(s) => s != ""
    case JArr(_) => true
    case JObj(_) => true
  }

  /** Truthiness of a property read; `None` is `undefined`, which is falsy. */
  predicate Truthy(p: Option<Json>) {
    p.Some? && IsTruthy(p.value)
  }

  /**
   * `v[key]` for a receiver that is not `null` (reading a property of `null`
   * throws, and callers handle that case first). Only own members of an
   * object are found: the property names the server reads are not inherited
   * by any JSON value.
   */
  function Get(v: Json, key: string): (p: Option<Json>)
    requires v != JNull
    ensures p.Some? <==> v.JObj? && key in v.members
    ensures p.Some? ==> p.value == v.members[key]
  {
    if v.JObj? && key in v.members then Some(v.members[key]) else None
  }

  /** `a || b` on a property read: `a` when it is truthy, otherwise `b`. */
  function Or(a: Option<Json>, b: Json): (r: Json)
    ensures Truthy(a) ==> Some(r) == a
    ensures !Truthy(a) ==> r == b
  {
    if Truthy(a) then a.value else b
  }

  /**
   * Converting `v` to text, as a template literal does, throws. For an
   * object that happens when it has an own `toString` member: no JSON value
   * is callable, and the inherited `valueOf` returns the object itself,
   * which is not a primitive. An array is converted by `join`, which
   * converts each element in turn. Every other parsed value converts.
   */
  predicate Unprintable(v: Json) {
    match v
    case JObj(members) => "toString" in members
    case JArr(items) => exists i :: 0 <= i < |items| && Unprintable(items[i])
    case _ => false
  }
}
