/**
 * The JSON values the language model returns and the database stores, with
 * the handful of JavaScript operations the classifier and the procedure
 * matcher apply to them: truthiness, property access and key counting.
 */
module Json {
  import opened Wrappers

  datatype Json =
    | JNull
    | JBool(b: bool)
    | JNum(n: real)
    | JStr(s: string)
    | JArr(items: seq<Json>)
    | JObj(fields: map<string, Json>)

  /** JavaScript truthiness of a value that may be `undefined` (`None`). */
  predicate Truthy(v: Option<Json>) {
    match v
    case None => false
    case Some(JNull) => false
    case Some(JBool(b)) => b
    case Some(JNum(n)) => n != 0.0
    case Some(JStr(s)) => s != ""
    case Some(JArr(_)) => true
    case Some(JObj(_)) => true
  }

  /** `o[key]` on a JSON object; `undefined` when the key is absent. */
  function Field(o: map<string, Json>, key: string): (r: Option<Json>)
    ensures r.Some? <==> key in o
  {
    if key in o then Some(o[key]) else None
  }

  /** `v[key]` on a defined value: only objects have named members. */
  function Member(v: Json, key: string): (r: Option<Json>)
    ensures r.Some? ==> v.JObj? && key in v.fields
  {
    if v.JObj? then Field(v.fields, key) else None
  }

  /** `v.length > 0`: arrays and strings by their length, an object by its own numeric `length` member. */
  predicate HasPositiveLength(v: Json) {
    match v
    case JArr(items) => |items| > 0
    case JStr(s) => |s| > 0
    case JObj(fields) => "length" in fields && fields["length"].JNum? && fields["length"].n > 0.0
    case _ => false
  }

  /** `Object.keys(v).length`: the members of an object, the indices of an array or a string, none otherwise. */
  function KeyCount(v: Json): nat {
    match v
    case JObj(fields) => |fields.Keys|
    case JArr(items) => |items|
    case JStr(s) => |s|
    case _ => 0
  }
}
