/**
 * The values `JSON.parse` produces, and JavaScript truthiness on them. JSON has no
 * `undefined` and no NaN; a property that is absent reads as `undefined`, which the
 * accessors below return as `None`.
 */
module Json {
  import opened Wrappers

  datatype JsValue =
    | JNull
    | JBool(b: bool)
    | JNumber(x: real)
    | JString(s: string)
    | JArray(items: seq<JsValue>)
    | JObject(fields: map<string, JsValue>)

  /** Whether `if (v)` takes the branch: false, 0, "" and null are falsy. */
  predicate Truthy(v: JsValue) {
    match v
    case JNull => false
    case JBool(b) => b
    case JNumber(x) => x != 0.0
    case JString(s) => s != ""
    case JArray(_) => true
    case JObject(_) => true
  }

  /** `v.name` for a value that is not null: an own field of an object, and `undefined`
      for everything else (no JSON array or primitive has a property of the names read
      here). */
  function Property(v: JsValue, name: string): (r: Option<JsValue>)
    requires !v.JNull?
    ensures r.Some? <==> v.JObject? && name in v.fields
    ensures r.Some? ==> r.value == v.fields[name]
  {
    if v.JObject? && name in v.fields then Some(v.fields[name]) else None
  }

  /** `!!v.name`: `undefined` is falsy. */
  predicate PropertyTruthy(v: JsValue, name: string)
    requires !v.JNull?
  {
    var p := Property(v, name);
    p.Some? && Truthy(p.value)
  }
}
