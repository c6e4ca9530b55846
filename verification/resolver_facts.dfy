/**
 * `schema.resolve(payload)` and the properties of resolution that hold for every
 * schema and payload.
 */
module ResolverFacts {
  import opened Wrappers
  import opened Values
  import opened Policies
  import opened Schemas
  import opened ErrorPaths
  import opened Resolver
  import Overlay

  /**
   * Every error path a level produces lies under that level's path (one `.key`
   * segment per object nesting, none per branch selection), and no path holds
   * an empty message list.
   */
  lemma {:induction false} FieldsErrorsWellFormed(fields: seq<Field>, scope: map<string, Schema>, input: Record,
                                                  path: string, coerce: Coercer, fuel: nat, acc: Resolution)
    requires WellFormed(acc.errors, path)
    ensures var r := ResolveFields(fields, scope, input, path, coerce, fuel, acc);
            r.Success? ==> WellFormed(r.value.errors, path)
    decreases fuel, |fields|
  {
    if fields != [] {
      var f := fields[0];
      var o := Run(f.policies, f.key, input, coerce);
      var nested: Option<Resolution> := None;
      if Descends(f, o) && fuel > 0 {
        var sub := ResolveSchema(f.nested.value, o.value.entries, Child(path, f.key), coerce, fuel - 1);
        SchemaErrorsWellFormed(f.nested.value, o.value.entries, Child(path, f.key), coerce, fuel - 1);
        if sub.Success? {
          WidenWellFormed(sub.value.errors, path, f.key);
          nested := Some(sub.value);
        }
      }
      if !Descends(f, o) || (fuel > 0 && nested.Some?) {
        var acc' := RecordField(acc, f.key, o, nested, path);
        if o.eligible {
          var errors := if o.error.Some? then AddError(acc.errors, Child(path, f.key), o.error.value) else acc.errors;
          if o.error.Some? {
            ChildIsUnder(path, f.key);
            AddErrorWellFormed(acc.errors, path, Child(path, f.key), o.error.value);
          }
          if nested.Some? {
            MergeWellFormed(errors, nested.value.errors, path);
          }
        }
        assert WellFormed(acc'.errors, path);
        match f.mutation
        case None =>
          FieldsErrorsWellFormed(fields[1..], scope, input, path, coerce, fuel, acc');
        case Some(select) =>
          var name := select(o.value, f.key, input);
          if name in scope && fuel > 0 {
            var branch := scope[name];
            FieldsErrorsWellFormed(Overlay.Apply(fields[1..], branch.fields), scope + branch.subschemes,
                                   input, path, coerce, fuel - 1, acc');
          }
      }
    }
  }

  lemma {:induction false} SchemaErrorsWellFormed(s: Schema, input: Record, path: string, coerce: Coercer, fuel: nat)
    ensures var r := ResolveSchema(s, input, path, coerce, fuel);
            r.Success? ==> WellFormed(r.value.errors, path)
    decreases fuel, |s.fields| + 1
  {
    FieldsErrorsWellFormed(s.fields, s.subschemes, input, path, coerce, fuel, Empty);
  }

  /** The identifiers a branch contributes: its own fields and those of its sub-schemas. */
  lemma BranchKeys(scope: map<string, Schema>, name: string)
    requires name in scope
    ensures KeysOf(scope[name].fields) <= ScopeKeys(scope)
    ensures ScopeKeys(scope[name].subschemes) <= ScopeKeys(scope)
  {
    var b := scope[name];
    forall k | k in KeysOf(b.fields)
      ensures k in ScopeKeys(scope)
    {
      assert k in ReachableKeys(b);
    }
    forall k | k in ScopeKeys(b.subschemes)
      ensures k in ScopeKeys(scope)
    {
      var n :| n in b.subschemes && k in ReachableKeys(b.subschemes[n]);
      assert k in ReachableKeys(b);
    }
  }

  lemma ScopeKeysUnion(a: map<string, Schema>, b: map<string, Schema>)
    ensures ScopeKeys(a + b) <= ScopeKeys(a) + ScopeKeys(b)
  {
    forall k | k in ScopeKeys(a + b)
      ensures k in ScopeKeys(a) + ScopeKeys(b)
    {
      var n :| n in a + b && k in ReachableKeys((a + b)[n]);
      if n in b {
        assert k in ReachableKeys(b[n]);
      } else {
        assert k in ReachableKeys(a[n]);
      }
    }
  }

  /**
   * Output identifiers come only from what was already recorded, the fields left
   * at this level, and the fields declared by the branches in scope: nothing else
   * is ever written.
   */
  lemma {:induction false} FieldsOutputKeys(fields: seq<Field>, scope: map<string, Schema>, input: Record,
                                            path: string, coerce: Coercer, fuel: nat, acc: Resolution)
    ensures OutputWithin(ResolveFields(fields, scope, input, path, coerce, fuel, acc),
                         acc.output.Keys + KeysOf(fields) + ScopeKeys(scope))
    decreases fuel, |fields|
  {
    if fields != [] {
      var f := fields[0];
      var o := Run(f.policies, f.key, input, coerce);
      var r := ResolveFields(fields, scope, input, path, coerce, fuel, acc);
      if r.Success? {
        var nested: Option<Resolution> := None;
        if Descends(f, o) {
          nested := Some(ResolveSchema(f.nested.value, o.value.entries, Child(path, f.key), coerce, fuel - 1).value);
        }
        var acc' := RecordField(acc, f.key, o, nested, path);
        assert acc'.output.Keys <= acc.output.Keys + {f.key};
        assert KeysOf(fields) == {f.key} + KeysOf(fields[1..]);
        match f.mutation
        case None =>
          FieldsOutputKeys(fields[1..], scope, input, path, coerce, fuel, acc');
        case Some(select) =>
          var name := select(o.value, f.key, input);
          var branch := scope[name];
          FieldsOutputKeysAfterSelection(fields, scope, input, path, coerce, fuel, acc', name);
      }
    }
  }

  /** The selection step of `FieldsOutputKeys`: the effective list and scope stay within the old bound. */
  lemma {:induction false} FieldsOutputKeysAfterSelection(fields: seq<Field>, scope: map<string, Schema>, input: Record,
                                                          path: string, coerce: Coercer, fuel: nat, acc': Resolution, name: string)
    requires fields != [] && name in scope && fuel > 0
    ensures OutputWithin(ResolveFields(Overlay.Apply(fields[1..], scope[name].fields), scope + scope[name].subschemes,
                                       input, path, coerce, fuel - 1, acc'),
                         acc'.output.Keys + KeysOf(fields) + ScopeKeys(scope))
    decreases fuel, 0
  {
    var branch := scope[name];
    var eff := Overlay.Apply(fields[1..], branch.fields);
    var scope' := scope + branch.subschemes;
    var r := ResolveFields(eff, scope', input, path, coerce, fuel - 1, acc');
    FieldsOutputKeys(eff, scope', input, path, coerce, fuel - 1, acc');
    assert OutputWithin(r, acc'.output.Keys + KeysOf(eff) + ScopeKeys(scope'));
    SelectionKeys(fields, scope, name);
    assert KeysOf(eff) + ScopeKeys(scope') <= KeysOf(fields) + ScopeKeys(scope);
    OutputWithinWidened(r, acc'.output.Keys, KeysOf(eff), ScopeKeys(scope'), KeysOf(fields), ScopeKeys(scope));
  }

  /** A successful resolution writes only identifiers in `keys`. */
  predicate OutputWithin(r: Result<Resolution, ConfigError>, keys: set<Key>) {
    r.Success? ==> r.value.output.Keys <= keys
  }

  lemma OutputWithinWidened(r: Result<Resolution, ConfigError>, x: set<Key>, k1: set<Key>, s1: set<Key>, k: set<Key>, s: set<Key>)
    requires OutputWithin(r, x + k1 + s1) && k1 + s1 <= k + s
    ensures OutputWithin(r, x + k + s)
  {
  }

  /** After a selection, the effective field list and the widened scope declare no new identifiers. */
  lemma SelectionKeys(fields: seq<Field>, scope: map<string, Schema>, name: string)
    requires fields != [] && name in scope
    ensures KeysOf(Overlay.Apply(fields[1..], scope[name].fields)) + ScopeKeys(scope + scope[name].subschemes)
         <= KeysOf(fields) + ScopeKeys(scope)
  {
    var branch := scope[name];
    BranchKeys(scope, name);
    ScopeKeysUnion(scope, branch.subschemes);
    assert KeysOf(fields) == {fields[0].key} + KeysOf(fields[1..]);
  }

  /**
   * `schema.resolve(payload)`: resolution from the root path `$`. Every error sits at
   * `$.key` or deeper with at least one message; only identifiers the schema or one
   * of its branches declares are written; and without inline schemas every error
   * sits exactly at `$.key` for a declared `key`, whatever branches were selected.
   */
  function Resolve(s: Schema, input: Record, coerce: Coercer): (r: Result<Resolution, ConfigError>)
    ensures r.Success? ==> WellFormed(r.value.errors, Root)
    ensures r.Success? ==> r.value.output.Keys <= ReachableKeys(s)
    ensures r.Success? && Flat(s) ==> r.value.errors.Keys <= ChildPaths(Root, ReachableKeys(s))
  {
    SchemaErrorsWellFormed(s, input, Root, coerce, MaxDepth);
    FieldsOutputKeys(s.fields, s.subschemes, input, Root, coerce, MaxDepth, Empty);
    SchemaErrorPaths(s, input, Root, coerce, MaxDepth);
    assert ReachableKeys(s) == KeysOf(s.fields) + ScopeKeys(s.subschemes);
    ResolveSchema(s, input, Root, coerce, MaxDepth)
  }

  /** No field of the list has an inline object schema. */
  ghost predicate NoInline(fields: seq<Field>) {
    forall g :: g in fields ==> g.nested.None?
  }

  /** No field of the schema, of its branches or of theirs has an inline object schema. */
  ghost predicate Flat(s: Schema) {
    && NoInline(s.fields)
    && forall n :: n in s.subschemes ==> Flat(s.subschemes[n])
  }

  ghost predicate FlatScope(scope: map<string, Schema>) {
    forall n :: n in scope ==> Flat(scope[n])
  }

  /** The error paths of the fields `keys` at the level whose path is `path`: one segment each. */
  function ChildPaths(path: string, keys: set<Key>): set<string>
  {
    set k | k in keys :: Child(path, k)
  }

  /** A successful resolution records errors only under the paths in `paths`. */
  predicate ErrorsWithin(r: Result<Resolution, ConfigError>, paths: set<string>) {
    r.Success? ==> r.value.errors.Keys <= paths
  }

  /**
   * A level without inline schemas reports errors only at `path.key` for the
   * identifiers it and its branches declare (any `keys` covering them): a
   * selection adds no path segment.
   */
  lemma {:induction false} FieldsErrorPaths(fields: seq<Field>, scope: map<string, Schema>, input: Record,
                                            path: string, coerce: Coercer, fuel: nat, acc: Resolution, keys: set<Key>)
    requires NoInline(fields)
    requires FlatScope(scope)
    requires KeysOf(fields) + ScopeKeys(scope) <= keys
    ensures ErrorsWithin(ResolveFields(fields, scope, input, path, coerce, fuel, acc),
                         acc.errors.Keys + ChildPaths(path, keys))
    decreases fuel, |fields|
  {
    if fields != [] {
      var f := fields[0];
      NoInlineTail(fields);
      var o := Run(f.policies, f.key, input, coerce);
      var acc' := RecordField(acc, f.key, o, None, path);
      assert Child(path, f.key) in ChildPaths(path, keys);
      assert acc'.errors.Keys <= acc.errors.Keys + {Child(path, f.key)};
      assert KeysOf(fields) == {f.key} + KeysOf(fields[1..]);
      var r := ResolveFields(fields, scope, input, path, coerce, fuel, acc);
      match f.mutation
      case None =>
        FieldsErrorPaths(fields[1..], scope, input, path, coerce, fuel, acc', keys);
        ErrorsWithinWidened(r, acc'.errors.Keys + ChildPaths(path, keys), acc.errors.Keys + ChildPaths(path, keys));
      case Some(select) =>
        var name := select(o.value, f.key, input);
        if name in scope && fuel > 0 {
          var branch := scope[name];
          SelectionKeys(fields, scope, name);
          SelectionFlat(fields, scope, name);
          FieldsErrorPaths(Overlay.Apply(fields[1..], branch.fields), scope + branch.subschemes,
                           input, path, coerce, fuel - 1, acc', keys);
          ErrorsWithinWidened(r, acc'.errors.Keys + ChildPaths(path, keys), acc.errors.Keys + ChildPaths(path, keys));
        }
    }
  }

  lemma SchemaErrorPaths(s: Schema, input: Record, path: string, coerce: Coercer, fuel: nat)
    ensures Flat(s) ==> ErrorsWithin(ResolveSchema(s, input, path, coerce, fuel), ChildPaths(path, ReachableKeys(s)))
  {
    if Flat(s) {
      assert ReachableKeys(s) == KeysOf(s.fields) + ScopeKeys(s.subschemes);
      FieldsErrorPaths(s.fields, s.subschemes, input, path, coerce, fuel, Empty, ReachableKeys(s));
    }
  }

  /** After a selection on a level without inline schemas, the effective list and the widened scope have none either. */
  lemma SelectionFlat(fields: seq<Field>, scope: map<string, Schema>, name: string)
    requires fields != [] && name in scope
    requires NoInline(fields)
    requires FlatScope(scope)
    ensures NoInline(Overlay.Apply(fields[1..], scope[name].fields))
    ensures FlatScope(scope + scope[name].subschemes)
  {
    var branch := scope[name];
    assert Flat(branch);
    NoInlineTail(fields);
  }

  lemma NoInlineTail(fields: seq<Field>)
    requires fields != [] && NoInline(fields)
    ensures fields[0].nested.None? && NoInline(fields[1..])
  {
    assert fields[0] in fields;
    assert forall g :: g in fields[1..] ==> g in fields;
  }

  lemma ErrorsWithinWidened(r: Result<Resolution, ConfigError>, a: set<string>, b: set<string>)
    requires ErrorsWithin(r, a) && a <= b
    ensures ErrorsWithin(r, b)
  {
  }

  /** A level none of whose fields mutates writes only its own identifiers. */
  lemma {:induction false} FieldsOutputKeysUnmutated(fields: seq<Field>, scope: map<string, Schema>, input: Record,
                                                     path: string, coerce: Coercer, fuel: nat, acc: Resolution)
    requires forall g :: g in fields ==> g.mutation.None?
    ensures OutputWithin(ResolveFields(fields, scope, input, path, coerce, fuel, acc), acc.output.Keys + KeysOf(fields))
    decreases |fields|
  {
    if fields != [] {
      var f := fields[0];
      assert f in fields;
      var o := Run(f.policies, f.key, input, coerce);
      var r := ResolveFields(fields, scope, input, path, coerce, fuel, acc);
      if r.Success? {
        var nested: Option<Resolution> := None;
        if Descends(f, o) {
          nested := Some(ResolveSchema(f.nested.value, o.value.entries, Child(path, f.key), coerce, fuel - 1).value);
        }
        var acc' := RecordField(acc, f.key, o, nested, path);
        assert acc'.output.Keys <= acc.output.Keys + {f.key};
        assert KeysOf(fields) == {f.key} + KeysOf(fields[1..]);
        assert forall g :: g in fields[1..] ==> g in fields;
        FieldsOutputKeysUnmutated(fields[1..], scope, input, path, coerce, fuel, acc');
      }
    }
  }

  /** A level none of whose fields mutates or has an inline schema reports errors only at `path.key` for its own identifiers. */
  lemma {:induction false} FieldsErrorPathsUnmutated(fields: seq<Field>, scope: map<string, Schema>, input: Record,
                                                     path: string, coerce: Coercer, fuel: nat, acc: Resolution)
    requires forall g :: g in fields ==> g.mutation.None?
    requires NoInline(fields)
    ensures ErrorsWithin(ResolveFields(fields, scope, input, path, coerce, fuel, acc),
                         acc.errors.Keys + ChildPaths(path, KeysOf(fields)))
    decreases |fields|
  {
    if fields != [] {
      var f := fields[0];
      assert f in fields;
      NoInlineTail(fields);
      assert forall g :: g in fields[1..] ==> g in fields;
      var o := Run(f.policies, f.key, input, coerce);
      var acc' := RecordField(acc, f.key, o, None, path);
      assert KeysOf(fields) == {f.key} + KeysOf(fields[1..]);
      assert Child(path, f.key) in ChildPaths(path, KeysOf(fields));
      assert acc'.errors.Keys <= acc.errors.Keys + {Child(path, f.key)};
      FieldsErrorPathsUnmutated(fields[1..], scope, input, path, coerce, fuel, acc');
      assert ChildPaths(path, KeysOf(fields[1..])) <= ChildPaths(path, KeysOf(fields));
    }
  }

  /**
   * Branch exclusivity: once the first field selects branch `name`, and nothing
   * after it selects again, the level writes only its own identifiers and those of
   * `name`'s fields; no unselected sibling branch contributes anything. Without
   * inline schemas, errors likewise sit only at `path.key` for those identifiers.
   */
  lemma SelectedBranchOnly(fields: seq<Field>, scope: map<string, Schema>, input: Record,
                           path: string, coerce: Coercer, fuel: nat, acc: Resolution, name: string)
    requires fields != [] && fields[0].mutation.Some?
    requires name == fields[0].mutation.value(Run(fields[0].policies, fields[0].key, input, coerce).value, fields[0].key, input)
    requires name in scope
    requires forall g :: g in Overlay.Apply(fields[1..], scope[name].fields) ==> g.mutation.None?
    ensures OutputWithin(ResolveFields(fields, scope, input, path, coerce, fuel, acc),
                         acc.output.Keys + KeysOf(fields) + KeysOf(scope[name].fields))
    ensures NoInline(fields) && NoInline(scope[name].fields) ==>
              ErrorsWithin(ResolveFields(fields, scope, input, path, coerce, fuel, acc),
                           acc.errors.Keys + ChildPaths(path, KeysOf(fields) + KeysOf(scope[name].fields)))
  {
    var f := fields[0];
    var o := Run(f.policies, f.key, input, coerce);
    var r := ResolveFields(fields, scope, input, path, coerce, fuel, acc);
    if r.Success? {
      var nested: Option<Resolution> := None;
      if Descends(f, o) {
        nested := Some(ResolveSchema(f.nested.value, o.value.entries, Child(path, f.key), coerce, fuel - 1).value);
      }
      var acc' := RecordField(acc, f.key, o, nested, path);
      var eff := Overlay.Apply(fields[1..], scope[name].fields);
      assert r == ResolveFields(eff, scope + scope[name].subschemes, input, path, coerce, fuel - 1, acc');
      FieldsOutputKeysUnmutated(eff, scope + scope[name].subschemes, input, path, coerce, fuel - 1, acc');
      assert KeysOf(fields) == {f.key} + KeysOf(fields[1..]);
      if NoInline(fields) && NoInline(scope[name].fields) {
        BranchErrorPaths(fields, scope, input, path, coerce, fuel, acc, name, o, acc');
      }
    }
  }

  /** The errors half of `SelectedBranchOnly`, once the first field's outcome `o` is recorded in `acc'`. */
  lemma BranchErrorPaths(fields: seq<Field>, scope: map<string, Schema>, input: Record,
                         path: string, coerce: Coercer, fuel: nat, acc: Resolution, name: string,
                         o: Outcome, acc': Resolution)
    requires fields != [] && name in scope && fuel > 0
    requires NoInline(fields) && NoInline(scope[name].fields)
    requires forall g :: g in Overlay.Apply(fields[1..], scope[name].fields) ==> g.mutation.None?
    requires acc' == RecordField(acc, fields[0].key, o, None, path)
    ensures ErrorsWithin(ResolveFields(Overlay.Apply(fields[1..], scope[name].fields), scope + scope[name].subschemes,
                                       input, path, coerce, fuel - 1, acc'),
                         acc.errors.Keys + ChildPaths(path, KeysOf(fields) + KeysOf(scope[name].fields)))
  {
    var eff := Overlay.Apply(fields[1..], scope[name].fields);
    var keys := KeysOf(fields) + KeysOf(scope[name].fields);
    NoInlineTail(fields);
    assert NoInline(eff);
    FieldsErrorPathsUnmutated(eff, scope + scope[name].subschemes, input, path, coerce, fuel - 1, acc');
    assert KeysOf(fields) == {fields[0].key} + KeysOf(fields[1..]);
    assert KeysOf(eff) <= keys;
    assert ChildPaths(path, KeysOf(eff)) <= ChildPaths(path, keys);
    assert Child(path, fields[0].key) in ChildPaths(path, keys);
    assert acc'.errors.Keys <= acc.errors.Keys + {Child(path, fields[0].key)};
  }

  /** `r` keeps everything `acc` recorded: its identifiers, and each path's messages as a prefix. */
  predicate Extends(acc: Resolution, r: Resolution) {
    && acc.output.Keys <= r.output.Keys
    && forall p :: p in acc.errors ==> p in r.errors && acc.errors[p] <= r.errors[p]
  }

  lemma RecordFieldExtends(acc: Resolution, key: Key, o: Outcome, nested: Option<Resolution>, path: string)
    ensures Extends(acc, RecordField(acc, key, o, nested, path))
  {
  }

  /** Validation errors accumulate: resolving more fields never drops what was already recorded. */
  lemma {:induction false} FieldsExtend(fields: seq<Field>, scope: map<string, Schema>, input: Record,
                                        path: string, coerce: Coercer, fuel: nat, acc: Resolution)
    ensures var r := ResolveFields(fields, scope, input, path, coerce, fuel, acc);
            r.Success? ==> Extends(acc, r.value)
    decreases fuel, |fields|
  {
    var r := ResolveFields(fields, scope, input, path, coerce, fuel, acc);
    if fields != [] && r.Success? {
      var f := fields[0];
      var o := Run(f.policies, f.key, input, coerce);
      var nested: Option<Resolution> := None;
      if Descends(f, o) {
        nested := Some(ResolveSchema(f.nested.value, o.value.entries, Child(path, f.key), coerce, fuel - 1).value);
      }
      var acc' := RecordField(acc, f.key, o, nested, path);
      RecordFieldExtends(acc, f.key, o, nested, path);
      match f.mutation
      case None =>
        FieldsExtend(fields[1..], scope, input, path, coerce, fuel, acc');
      case Some(select) =>
        var branch := scope[select(o.value, f.key, input)];
        FieldsExtend(Overlay.Apply(fields[1..], branch.fields), scope + branch.subschemes,
                     input, path, coerce, fuel - 1, acc');
    }
  }

  /**
   * A field whose missing key reaches `declared` (every policy before it passes nil)
   * contributes nothing: no output entry, no error.
   */
  lemma DeclaredMissingSkipped(fields: seq<Field>, scope: map<string, Schema>, input: Record,
                               path: string, coerce: Coercer, fuel: nat, acc: Resolution,
                               pre: seq<Policy>, post: seq<Policy>)
    requires fields != [] && fields[0].mutation.None?
    requires fields[0].policies == pre + [Declared] + post
    requires fields[0].key !in input && PassesNil(pre, fields[0].key, input, coerce)
    ensures ResolveFields(fields, scope, input, path, coerce, fuel, acc)
         == ResolveFields(fields[1..], scope, input, path, coerce, fuel, acc)
  {
    DeclaredMissing(pre, post, fields[0].key, input, coerce);
  }

  /**
   * A field whose missing key reaches `required` (every policy before it passes nil)
   * is output as nil with "is required" at its path.
   */
  lemma RequiredMissingRecorded(fields: seq<Field>, scope: map<string, Schema>, input: Record,
                                path: string, coerce: Coercer, fuel: nat, acc: Resolution,
                                pre: seq<Policy>, post: seq<Policy>)
    requires fields != [] && fields[0].mutation.None?
    requires fields[0].policies == pre + [Required] + post
    requires fields[0].key !in input && PassesNil(pre, fields[0].key, input, coerce)
    ensures ResolveFields(fields, scope, input, path, coerce, fuel, acc)
         == ResolveFields(fields[1..], scope, input, path, coerce, fuel,
                          Resolution(acc.output[fields[0].key := Nil],
                                     AddError(acc.errors, Child(path, fields[0].key), RequiredMessage)))
  {
    RequiredMissing(pre, post, fields[0].key, input, coerce);
  }

  /**
   * A mutating field whose missing key reaches `declared` writes nothing, and its
   * selector, given nil, names the branch that takes over the rest of the level.
   */
  lemma DeclaredMissingSelects(fields: seq<Field>, scope: map<string, Schema>, input: Record,
                               path: string, coerce: Coercer, fuel: nat, acc: Resolution,
                               pre: seq<Policy>, post: seq<Policy>, name: string)
    requires fields != [] && fields[0].mutation.Some?
    requires fields[0].policies == pre + [Declared] + post
    requires fields[0].key !in input && PassesNil(pre, fields[0].key, input, coerce)
    requires fields[0].mutation.value(Nil, fields[0].key, input) == name
    requires name in scope && fuel > 0
    ensures ResolveFields(fields, scope, input, path, coerce, fuel, acc)
         == ResolveFields(Overlay.Apply(fields[1..], scope[name].fields), scope + scope[name].subschemes,
                          input, path, coerce, fuel - 1, acc)
  {
    DeclaredMissing(pre, post, fields[0].key, input, coerce);
  }

  /**
   * A mutating field whose missing key reaches `required` is output as nil with
   * "is required" at its path, and its selector, given nil, names the branch that
   * takes over the rest of the level.
   */
  lemma RequiredMissingSelects(fields: seq<Field>, scope: map<string, Schema>, input: Record,
                               path: string, coerce: Coercer, fuel: nat, acc: Resolution,
                               pre: seq<Policy>, post: seq<Policy>, name: string)
    requires fields != [] && fields[0].mutation.Some?
    requires fields[0].policies == pre + [Required] + post
    requires fields[0].key !in input && PassesNil(pre, fields[0].key, input, coerce)
    requires fields[0].mutation.value(Nil, fields[0].key, input) == name
    requires name in scope && fuel > 0
    ensures ResolveFields(fields, scope, input, path, coerce, fuel, acc)
         == ResolveFields(Overlay.Apply(fields[1..], scope[name].fields), scope + scope[name].subschemes,
                          input, path, coerce, fuel - 1,
                          Resolution(acc.output[fields[0].key := Nil],
                                     AddError(acc.errors, Child(path, fields[0].key), RequiredMessage)))
  {
    RequiredMissing(pre, post, fields[0].key, input, coerce);
  }

  /** One field without a mutation or inline schema: record its outcome `o` and go on with the rest. */
  lemma PlainStep(fields: seq<Field>, scope: map<string, Schema>, input: Record,
                  path: string, coerce: Coercer, fuel: nat, acc: Resolution, o: Outcome)
    requires fields != [] && fields[0].mutation.None? && fields[0].nested.None?
    requires Run(fields[0].policies, fields[0].key, input, coerce) == o
    ensures ResolveFields(fields, scope, input, path, coerce, fuel, acc)
         == ResolveFields(fields[1..], scope, input, path, coerce, fuel, RecordField(acc, fields[0].key, o, None, path))
  {
  }

  /**
   * One mutating field without an inline schema whose outcome `o` makes its selector
   * name the branch `name`: record the outcome, then continue the same level, under
   * the same path, with that branch overlaid.
   */
  lemma SelectStep(fields: seq<Field>, scope: map<string, Schema>, input: Record,
                   path: string, coerce: Coercer, fuel: nat, acc: Resolution, o: Outcome, name: string)
    requires fields != [] && fields[0].mutation.Some? && fields[0].nested.None?
    requires Run(fields[0].policies, fields[0].key, input, coerce) == o
    requires fields[0].mutation.value(o.value, fields[0].key, input) == name
    requires name in scope && fuel > 0
    ensures ResolveFields(fields, scope, input, path, coerce, fuel, acc)
         == ResolveFields(Overlay.Apply(fields[1..], scope[name].fields), scope + scope[name].subschemes,
                          input, path, coerce, fuel - 1, RecordField(acc, fields[0].key, o, None, path))
  {
  }

  /**
   * One field without a mutation whose outcome `o` leads into its inline schema, which
   * resolves to `res` under `path.key`: record the nested output and go on with the rest.
   */
  lemma NestedStep(fields: seq<Field>, scope: map<string, Schema>, input: Record,
                   path: string, coerce: Coercer, fuel: nat, acc: Resolution, o: Outcome, res: Resolution)
    requires fields != [] && fields[0].mutation.None? && fuel > 0
    requires Run(fields[0].policies, fields[0].key, input, coerce) == o && Descends(fields[0], o)
    requires ResolveSchema(fields[0].nested.value, o.value.entries, Child(path, fields[0].key), coerce, fuel - 1) == Success(res)
    ensures ResolveFields(fields, scope, input, path, coerce, fuel, acc)
         == ResolveFields(fields[1..], scope, input, path, coerce, fuel, RecordField(acc, fields[0].key, o, Some(res), path))
  {
  }

  /** The last field of a level, without a mutation or inline schema: the level ends with its outcome recorded. */
  lemma LastStep(f: Field, scope: map<string, Schema>, input: Record,
                 path: string, coerce: Coercer, fuel: nat, acc: Resolution, o: Outcome)
    requires f.mutation.None? && f.nested.None?
    requires Run(f.policies, f.key, input, coerce) == o
    ensures ResolveFields([f], scope, input, path, coerce, fuel, acc) == Success(RecordField(acc, f.key, o, None, path))
  {
    assert [f][0] == f;
    assert [f][1..] == [];
  }
}
