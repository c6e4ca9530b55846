/**
 * Schema resolution: walks a schema's fields in order against a payload, runs each
 * field's policies, records kept values and path-keyed errors, resolves inline
 * object schemas under an extended path, and lets mutating fields select the
 * branch whose fields take over the rest of the level.
 */
module Resolver {
  import opened Wrappers
  import opened Values
  import opened Policies
  import opened Schemas
  import opened ErrorPaths
  import Overlay

  /** Fatal schema-authoring errors, kept apart from the per-field validation errors. */
  datatype ConfigError =
    | UnknownSubschema(name: string)  // a selector named a branch that is not declared
    | DepthExceeded                   // the chain of selections and nestings is too deep

  /** What a resolution yields: the output record and the errors by path. */
  datatype Resolution = Resolution(output: Record, errors: ErrorMap)

  const Empty := Resolution(map[], map[])

  /** The safety bound on selections plus object nestings along one resolution. */
  const MaxDepth: nat := 64

  /**
   * Records one field's outcome: a kept field writes its value (or its inline
   * schema's output) and its error under `path.key`; a dropped field writes nothing.
   */
  function RecordField(acc: Resolution, key: Key, o: Outcome, nested: Option<Resolution>, path: string): (r: Resolution)
    ensures !o.eligible ==> r == acc
    ensures o.eligible ==> r.output == acc.output[key := if nested.Some? then Hash(nested.value.output) else o.value]
    ensures o.eligible && o.error.Some? && nested.None? ==> r.errors == AddError(acc.errors, Child(path, key), o.error.value)
    ensures o.eligible && o.error.None? && nested.None? ==> r.errors == acc.errors
    ensures o.eligible && nested.Some? ==>
              r.errors == Merge(if o.error.Some? then AddError(acc.errors, Child(path, key), o.error.value) else acc.errors,
                                nested.value.errors)
  {
    if !o.eligible then acc
    else
      var value := if nested.Some? then Hash(nested.value.output) else o.value;
      var errors := if o.error.Some? then AddError(acc.errors, Child(path, key), o.error.value) else acc.errors;
      var errors' := if nested.Some? then Merge(errors, nested.value.errors) else errors;
      Resolution(acc.output[key := value], errors')
  }

  /** Whether a field's outcome leads into its inline object schema. */
  predicate Descends(f: Field, o: Outcome) {
    f.nested.Some? && o.eligible && o.error.None? && o.value.Hash?
  }

  /** Resolves a schema against a payload at `path`, with `fuel` selections and nestings left. */
  function ResolveSchema(s: Schema, input: Record, path: string, coerce: Coercer, fuel: nat): Result<Resolution, ConfigError>
    decreases fuel, |s.fields| + 1
  {
    ResolveFields(s.fields, s.subschemes, input, path, coerce, fuel, Empty)
  }

  /**
   * Resolves the fields still to be processed at one level. `scope` holds the
   * branches a selector may name: the schema's own, overlaid by those of every
   * branch selected so far on this level.
   */
  function ResolveFields(fields: seq<Field>, scope: map<string, Schema>, input: Record, path: string,
                         coerce: Coercer, fuel: nat, acc: Resolution): Result<Resolution, ConfigError>
    decreases fuel, |fields|
  {
    if fields == [] then Success(acc)
    else
      var f := fields[0];
      var o := Run(f.policies, f.key, input, coerce);
      var nested: Result<Option<Resolution>, ConfigError> :=
        if !Descends(f, o) then Success(None)
        else if fuel == 0 then Failure(DepthExceeded)
        else match ResolveSchema(f.nested.value, o.value.entries, Child(path, f.key), coerce, fuel - 1)
          case Success(res) => Success(Some(res))
          case Failure(e) => Failure(e);
      if nested.Failure? then Failure(nested.error)
      else
        var acc' := RecordField(acc, f.key, o, nested.value, path);
        match f.mutation
        case None => ResolveFields(fields[1..], scope, input, path, coerce, fuel, acc')
        case Some(select) =>
          var name := select(o.value, f.key, input);
          if name !in scope then Failure(UnknownSubschema(name))
          else if fuel == 0 then Failure(DepthExceeded)
          else
            var branch := scope[name];
            ResolveFields(Overlay.Apply(fields[1..], branch.fields), scope + branch.subschemes,
                          input, path, coerce, fuel - 1, acc')
  }
}
