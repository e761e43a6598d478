/** JSON values, as serde_json, Go's `map[string]any` and JavaScript hold them. */
module Json {
  import opened Wrappers

  datatype Json =
    | Null
    | Bool(b: bool)
    | Number(n: real)
    | String(s: string)
    | Array(items: seq<Json>)
    | Object(fields: map<string, Json>)
  {
    /** The member `key` of an object; nothing for other values, as in all three languages. */
    function Get(key: string): Option<Json> {
      if Object? && key in fields then Some(fields[key]) else None
    }

    predicate Has(key: string) {
      Get(key).Some?
    }

    /** JavaScript's conversion to a boolean. */
    predicate Truthy() {
      match this
      case Null => false
      case Bool(b) => b
      case Number(n) => n != 0.0
      case String(s) => s != ""
      case Array(_) => true
      case Object(_) => true
    }
  }
}
