/**
 * The JSON values that `json.loads` hands back to the search script
 * (section 2 of RFC 8259), with the two Python operations the script
 * applies to them: truth testing (`if data:`) and `dict.get(key, default)`.
 */
module Json {

  /** A decoded JSON value. Numbers are integers only (see README, Left out). */
  datatype Value =
    | Null
    | Bool(b: bool)
    | Number(n: int)
    | Str(s: string)
    | Array(items: seq<Value>)
    | Object(fields: map<string, Value>)

  /** Python's truth value of the decoded object: empty containers, "", 0, False and None are false. */
  predicate Truthy(v: Value)
    ensures !Truthy(v) <==> v in {Null, Bool(false), Number(0), Str(""), Array([]), Object(map[])}
  {
    match v
    case Null => false
    case Bool(b) => b
    case Number(n) => n != 0
    case Str(s) => s != ""
    case Array(items) => items != []
    case Object(fields) => fields != map[]
  }

  /** `fields.get(key, default)` on a decoded JSON object. */
  function Get(fields: map<string, Value>, key: string, default: Value): (v: Value)
    ensures key in fields ==> v == fields[key]
    ensures key !in fields ==> v == default
  {
    if key in fields then fields[key] else default
  }
}
