/** Request bodies as the API routes receive them from `request.json()`, and the few JavaScript
    rules the routes apply to them: truthiness, property access and type names. */
module Json {
  import opened Wrappers

  /** A parsed JSON value. Numbers are kept to integers. */
  datatype Json =
    | JNull
    | JBool(b: bool)
    | JNum(n: int)
    | JStr(s: string)
    | JArray(items: seq<Json>)
    | JObject(fields: map<string, Json>)

  /** JavaScript truthiness, with `None` standing for `undefined`. */
  predicate Truthy(v: Option<Json>) {
    match v
    case None => false
    case Some(JNull) => false
    case Some(JBool(b)) => b
    case Some(JNum(n)) => n != 0
    case Some(JStr(s)) => s != ""
    case Some(_) => true
  }

  /** The members of a non-null body: an object's own, none for any other value. */
  function FieldsOf(body: Json): map<string, Json> {
    if body.JObject? then body.fields else map[]
  }

  /** A member of `fields`, `None` standing for `undefined`. */
  function Field(fields: map<string, Json>, key: string): Option<Json> {
    if key in fields then Some(fields[key]) else None
  }

  /** `body[key]` for the keys the routes read: a member of an object, `undefined` on any other
      non-null value, and a TypeError (`None`) on `null`. */
  function Member(body: Json, key: string): (r: Option<Option<Json>>)
    ensures r.None? <==> body.JNull?
    ensures body.JObject? ==> r == Some(if key in body.fields then Some(body.fields[key]) else None)
    ensures !body.JObject? ==> r.None? || r == Some(None)
  {
    if body.JNull? then None else Some(Field(FieldsOf(body), key))
  }

  /** The type name a schema library reports for a value it did not expect. */
  function TypeName(v: Json): string {
    match v
    case JNull => "null"
    case JBool(_) => "boolean"
    case JNum(_) => "number"
    case JStr(_) => "string"
    case JArray(_) => "array"
    case JObject(_) => "object"
  }
}
