/** The schema-level declarations: `field`, `subschema` and `mutation_by!`. */
module SchemaDsl {
  import opened Wrappers
  import opened Values
  import opened Schemas
  import FieldDsl

  /**
   * Stores a field under its identifier: a redeclared identifier keeps its position
   * and takes the new definition, a new one is appended.
   */
  function Upsert(fields: seq<Field>, f: Field): (r: seq<Field>)
    ensures KeysOf(r) == KeysOf(fields) + {f.key}
    ensures f.key !in KeysOf(fields) ==> r == fields + [f]
    ensures |r| == if f.key in KeysOf(fields) then |fields| else |fields| + 1
    ensures forall i :: 0 <= i < |fields| ==> r[i].key == fields[i].key
    ensures f in r
    ensures forall i :: 0 <= i < |fields| && fields[i].key != f.key ==> r[i] == fields[i]
    decreases |fields|
  {
    if fields == [] then [f]
    else if fields[0].key == f.key then
      var r := [f] + fields[1..];
      assert r[1..] == fields[1..];
      r
    else
      var rest := Upsert(fields[1..], f);
      var r := [fields[0]] + rest;
      assert r[1..] == rest;
      assert forall i :: 1 <= i < |r| ==> r[i] == rest[i - 1];
      r
  }

  /** `field(...)` with its chained declarations, added to a schema. */
  function AddField(s: Schema, f: Field): (r: Schema)
    ensures r.subschemes == s.subschemes
    ensures KeysOf(r.fields) == KeysOf(s.fields) + {f.key}
    ensures f in r.fields
    ensures |r.fields| >= |s.fields|
    ensures forall i :: 0 <= i < |s.fields| && s.fields[i].key != f.key ==> r.fields[i] == s.fields[i]
  {
    s.(fields := Upsert(s.fields, f))
  }

  /** `subschema(name) { ... }`: registers a branch without touching the parent's own fields. */
  function Subschema(s: Schema, name: string, branch: Schema): (r: Schema)
    ensures r.fields == s.fields
    ensures r.subschemes.Keys == s.subschemes.Keys + {name}
    ensures name in r.subschemes && r.subschemes[name] == branch
    ensures forall n :: n in s.subschemes && n != name ==> r.subschemes[n] == s.subschemes[n]
  {
    s.(subschemes := s.subschemes[name := branch])
  }

  /** The synthetic field of `mutation_by!(key)`: no policies, transparent and mutating. */
  function GhostField(key: Key, select: Selector): (f: Field)
    ensures f.key == key && f.policies == [] && f.nested.None?
    ensures f.mutation == Some(select)
    ensures f.meta == map["transparent" := Bool(true), "mutates_schema" := Bool(true)]
    ensures IsTransparent(f)
  {
    FieldDsl.Transparent(FieldDsl.MutatesSchema(FieldDsl.NewField(key), select))
  }

  /**
   * `mutation_by!(key) { ... }`: an implicit mutation keyed on a raw input key, declared
   * as the transparent mutating field `GhostField(key, select)`; the other fields stay.
   */
  function MutationBy(s: Schema, key: Key, select: Selector): (r: Schema)
    ensures r.subschemes == s.subschemes
    ensures KeysOf(r.fields) == KeysOf(s.fields) + {key}
    ensures GhostField(key, select) in r.fields
    ensures |r.fields| >= |s.fields|
    ensures forall i :: 0 <= i < |s.fields| && s.fields[i].key != key ==> r.fields[i] == s.fields[i]
  {
    AddField(s, GhostField(key, select))
  }
}
