// The JSON values that both halves of the system pass around.  Integers and
// floats are kept apart because the plugin declaration tells `1` from `1.0`.
module JsonValues {
  import opened Wrappers

  datatype Json =
    | Null
    | Bool(b: bool)
    | Int(i: int)
    | Float(f: real)
    | Str(s: string)
    | Arr(items: seq<Json>)
    | Obj(fields: map<string, Json>)

  // Member access; anything but an object has no members.
  function Get(value: Json, key: string): Option<Json> {
    if value.Obj? && key in value.fields then Some(value.fields[key]) else None
  }

  function GetOr(value: Json, key: string, default: Json): Json {
    match Get(value, key)
    case Some(field) => field
    case None => default
  }

  // Python truthiness.
  predicate Truthy(value: Json) {
    match value
    case Null => false
    case Bool(b) => b
    case Int(i) => i != 0
    case Float(f) => f != 0.0
    case Str(s) => s != ""
    case Arr(items) => items != []
    case Obj(fields) => fields != map[]
  }

  // Truthiness of an optional member; an absent member is falsy.
  predicate TruthyAt(value: Json, key: string) {
    Get(value, key).Some? && Truthy(Get(value, key).value)
  }
}
