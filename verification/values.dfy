/** The untyped input and output records the engine works on. */
module Values {
  import opened Wrappers

  /** Field identifiers (Ruby symbols such as `:action`) are written as their names. */
  type Key = string

  /** A Ruby value as it can occur in a payload. */
  datatype Value =
    | Nil
    | Bool(b: bool)
    | Int(i: int)
    | Str(s: string)
    | Sym(name: string)
    | List(items: seq<Value>)
    | Hash(entries: map<Key, Value>)

  /** A payload: a keyed record. */
  type Record = map<Key, Value>

  /** `payload[key]`: the value stored under `key`, or nil when the key is missing. */
  function Fetch(payload: Record, key: Key): (v: Value)
    ensures key in payload ==> v == payload[key]
    ensures key !in payload ==> v == Nil
  {
    if key in payload then payload[key] else Nil
  }

  /** Blankness as checked by the `present` policy: nil, the empty string, an empty container. */
  predicate Blank(v: Value) {
    match v
    case Nil => true
    case Str(s) => s == ""
    case List(items) => items == []
    case Hash(entries) => entries == map[]
    case _ => false
  }
}
