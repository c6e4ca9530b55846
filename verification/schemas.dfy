/** Fields and schemas: the declarations the resolver and the introspector walk. */
module Schemas {
  import opened Wrappers
  import opened Values
  import opened Policies

  /** A mutation callback: `(value, key, payload) -> branch name`. */
  type Selector = (Value, Key, Record) -> string

  /**
   * One named slot of a schema: its policies in application order, the metadata
   * they and explicit `meta` calls recorded, an optional mutation callback, and an
   * optional inline schema for object-typed fields.
   */
  datatype Field = Field(
    key: Key,
    policies: seq<Policy>,
    meta: map<string, Value>,
    mutation: Option<Selector>,
    nested: Option<Schema>)

  /**
   * An ordered list of fields (evaluation order) and the sub-schemas declared
   * under it by name. A schema-level implicit mutation is a field of its own.
   */
  datatype Schema = Schema(fields: seq<Field>, subschemes: map<string, Schema>)

  const EmptySchema := Schema([], map[])

  /** The identifiers declared by a list of fields. */
  function KeysOf(fields: seq<Field>): (ks: set<Key>)
    ensures forall i :: 0 <= i < |fields| ==> fields[i].key in ks
    decreases |fields|
  {
    if fields == [] then {} else {fields[0].key} + KeysOf(fields[1..])
  }

  /** Every identifier a schema or any of its sub-schemas declares at its own level. */
  function ReachableKeys(s: Schema): set<Key>
  {
    KeysOf(s.fields) + set n, k | n in s.subschemes && k in ReachableKeys(s.subschemes[n]) :: k
  }

  /** Every identifier declared by the schemas of a branch table, recursively. */
  function ScopeKeys(scope: map<string, Schema>): set<Key>
  {
    set n, k | n in scope && k in ReachableKeys(scope[n]) :: k
  }

  /** Whether the field is flagged `transparent`. */
  predicate IsTransparent(f: Field) {
    "transparent" in f.meta && f.meta["transparent"] == Bool(true)
  }
}
