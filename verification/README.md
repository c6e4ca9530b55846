# Paradocs sub-schemas, in Dafny

A model of how a Paradocs schema resolves a payload when fields can switch the
schema under it, and of what the schema reports about itself through `structure`.

- A field declared with `mutates_schema!` calls its block with its value, its key and
  the payload. The block names a sub-schema (a *branch*) declared with `subschema`.
  The branch's fields take over the rest of the level: a branch field replaces a
  same-named field in place, and branch-only fields follow in the branch's order.
- `mutation_by!(key)` adds an implicit mutation. It is a field with no policies,
  flagged `transparent` and `mutates_schema`, that reads the raw payload key.
- A field typed `:object` with `.schema { ... }` resolves its hash against its inline
  schema under the path `$.key`. Its errors carry that segment; a branch selection
  adds no segment.
- Each field runs its policies in declaration order, and the first failing policy
  ends the run. The policies are `required`, `present`, `declared`, `options`,
  `whitelisted` and `type`. A missing key that reaches `required` is output as nil
  with `"is required"` at its path; every earlier policy must pass nil, as it does
  in any `field(key).required` or `field(key).present` chain. A missing key is
  dropped when a `declared` policy stops it, or when no policy fails.
- `structure` lists every declared branch recursively, with `_errors` empty, and each
  field's metadata flags. Transparent fields are hidden unless `ignore_transparent: false`.
- The field DSL (`required`, `present`, `declared`, `options`, `whitelisted`,
  `transparent`) is modelled over an immutable field. Each call adds policies through
  the host's `policy` or patches metadata through the host's `meta`.

Modules:

| module | what it holds |
|---|---|
| `Wrappers` | `Option` and `Result` |
| `Values` | Ruby values and payload records |
| `Policies` | the policies and the pipeline that runs them |
| `Schemas` | fields and schemas |
| `FieldDsl` | the field DSL |
| `SchemaDsl` | `field`, `subschema` and `mutation_by!` |
| `Overlay` | the effective field list after a selection |
| `ErrorPaths` | `$`-rooted error maps |
| `Resolver` | the level-by-level resolution that `resolve` runs |
| `ResolverFacts` | `resolve` and its properties for every schema and payload |
| `Structure` | `structure` |
| `ExampleFields`, `RequestScenarios`, `GhostScenarios`, `NestedScenarios` | the schemas of `spec/subschema_spec.rb`, each with the outcome its examples expect, proved |

Coercion to a primitive type is a parameter (`Coercer`). The examples assume only
`StandardCoercions`:

- a symbol becomes its string under `type(:string)`;
- a boolean passes through `type(:boolean)` unchanged;
- a hash passes through `type(:object)` unchanged.

The field and schema implementation (`schema.rb`, `field.rb`, the policy registry) is
not part of this model. Where the examples in `spec/subschema_spec.rb` leave a
behaviour open, "## Left out" names the choice the model makes.

A missing `present` field runs `required` and then `present`, and both fail on nil.
Yet `spec/subschema_spec.rb:43` expects the single message `"is required"`. So in
the model the first failing policy records its message and ends the field's run.

## Model

| member | source | states |
|---|---|---|
| FieldDsl.WithPolicy | lib/paradocs/field_dsl.rb:3-5 | the host's `policy` appends the policy and adds exactly the flags it records, with the policy's values; every other flag, the key, mutation and inline schema are unchanged; the flags stay in step with the policies |
| FieldDsl.WithMeta | lib/paradocs/field_dsl.rb:3-4 | the host's `meta` adds the patch's keys with the patch's values and keeps every other entry; policies, key, mutation and inline schema are unchanged; a patch setting no policy flag keeps the flags/policies correspondence (both directions) |
| FieldDsl.NewField | spec/subschema_spec.rb:15 | `field(key)` starts with no policies, no metadata, no mutation and no inline schema |
| FieldDsl.Required | lib/paradocs/field_dsl.rb:8-10 | appends the `required` policy and sets only the `required: true` flag; key, mutation and inline schema unchanged; keeps the flags in step with the policies |
| FieldDsl.RequiredFlag | lib/paradocs/field_dsl.rb:8-10 | a policy list records the `required` flag exactly when it holds the `required` policy (both directions) |
| FieldDsl.Present | lib/paradocs/field_dsl.rb:12-14 | appends `required` and then `present`, and sets both flags; everything else unchanged |
| FieldDsl.PresentFlags | lib/paradocs/field_dsl.rb:12-14 | on a fresh field `present` yields exactly `{required: true, present: true}`, the entry the `structure` example expects |
| FieldDsl.Declared | lib/paradocs/field_dsl.rb:16-18 | appends the `declared` policy and leaves the metadata unchanged |
| FieldDsl.DeclaredAddsNoRequired | lib/paradocs/field_dsl.rb:16-18 | `declared` never makes a field `required`, neither by flag nor by policy |
| FieldDsl.Options | lib/paradocs/field_dsl.rb:20-22 | appends `options(opts)` and records the option list under `options` |
| FieldDsl.Whitelisted | lib/paradocs/field_dsl.rb:24-26 | appends the `whitelisted` policy and sets the `whitelisted: true` flag; it is no validity check, so it neither adds nor removes the `required` and `present` flags |
| FieldDsl.Transparent | lib/paradocs/field_dsl.rb:28-30 | only patches metadata with `transparent: true`: the policies are unchanged, the field is transparent, and the policy flags still agree with the policies (both directions) |
| FieldDsl.TransparentCommutes | lib/paradocs/field_dsl.rb:28-30 | because `transparent` touches only metadata, it commutes with any policy declaration |
| FieldDsl.FreshFieldFlagsMatch | lib/paradocs/field_dsl.rb:3-5 | a fresh field's flags agree with its (empty) policy list, and none is stored as false |
| FieldDsl.OfType | spec/subschema_spec.rb:95 | `type(kind)` appends the coercion policy and records `type: kind` |
| FieldDsl.MutatesSchema | spec/subschema_spec.rb:10-12 | `mutates_schema!` installs the selector and flags `mutates_schema: true`, without adding a policy |
| FieldDsl.WithSchema | spec/subschema_spec.rb:111 | `.schema { ... }` attaches the inline schema and changes nothing else |
| SchemaDsl.Upsert | spec/subschema_spec.rb:95-102 | a redeclared identifier keeps its position and takes the new definition; a new one is appended |
| SchemaDsl.AddField | spec/subschema_spec.rb:15 | `field(...)` adds the field itself under its identifier, keeps every field with another identifier in its place, and leaves the sub-schemas alone |
| SchemaDsl.Subschema | spec/subschema_spec.rb:14-20 | `subschema(name)` registers exactly that branch and touches neither the own fields nor the other branches |
| SchemaDsl.GhostField | spec/subschema_spec.rb:50-52 | the implicit-mutation field has no policies, the selector, and exactly the flags `transparent` and `mutates_schema` |
| SchemaDsl.MutationBy | spec/subschema_spec.rb:50-52 | `mutation_by!(key)` adds exactly the identifier `key`, declared as the transparent mutating `GhostField(key, select)`; every field with another identifier stays in its place and the branches are untouched |
| Values.Fetch | spec/subschema_spec.rb:44 | a missing payload key reads as nil |
| Policies.PolicyMeta | lib/paradocs/field_dsl.rb:8-26 | every policy except `declared` records one flag; `declared` records none |
| Policies.ApplyPolicy | lib/paradocs/field_dsl.rb:8-22 | `required` fails exactly when the key is missing; `present` fails exactly on a blank value; `options` fails exactly on a non-nil value outside the list; `declared` and `whitelisted` always pass; only `type` changes the value |
| Policies.RunFrom | spec/subschema_spec.rb:41-44 | an error makes the field kept; a field that started absent is kept only with an error; an error-free kept field passed every policy's eligibility |
| Policies.Run | spec/subschema_spec.rb:41-44 | a field is kept only when its key exists or it carries an error |
| Policies.RequiredMissing | spec/subschema_spec.rb:41-44 | for any policy list `pre + [required] + post` whose `pre` policies all pass nil, a missing key is kept as nil with the single message `"is required"` |
| Policies.RequiredFirstMissing | spec/subschema_spec.rb:41-44 | the same when `required` is the first policy, as every `required` and `present` chain builds it |
| Policies.PassesNilPolicies | spec/subschema_spec.rb:111 | before `required`, `options` and `whitelisted` let a missing key's nil through; `type(kind)` does so exactly when the coercion maps nil to nil; `declared` and `present` stop it |
| Policies.RequiredOnlyChecksKey | spec/subschema_spec.rb:106-108 | `required` on an existing key passes whatever the value, nil included |
| Policies.DeclaredMissing | spec/subschema_spec.rb:95 | for any policy list `pre + [declared] + post` whose `pre` policies all pass nil, a missing key drops the field without an error |
| Policies.MissingFirstFails | spec/subschema_spec.rb:111 | a missing key whose first policy fails on nil (a `type` whose coercion rejects nil) is kept as nil with that policy's message; a later `declared` or `required` never runs |
| Policies.NoPolicies | spec/subschema_spec.rb:50-52 | without policies a field is kept exactly when its key exists, with its raw value |
| Policies.RequiredPasses | spec/subschema_spec.rb:107 | `required` on an existing key keeps the raw value |
| Policies.PresentPasses | spec/subschema_spec.rb:15 | `present` on a non-blank value keeps it without an error |
| Policies.PresentOptionPasses | spec/subschema_spec.rb:10 | `present.options(list)` on a listed non-blank value keeps it |
| Policies.PresentTypedPasses | spec/subschema_spec.rb:114 | `present.type(kind)` keeps the coerced value |
| Policies.TypedPresentPasses | spec/subschema_spec.rb:111 | `type(kind).present` keeps a coerced non-blank value |
| Policies.DeclaredTypedPasses | spec/subschema_spec.rb:95 | `declared.type(kind)` on an existing key keeps the coerced value |
| Overlay.Find | spec/subschema_spec.rb:95-102 | a field list's lookup succeeds exactly for its declared identifiers |
| Overlay.Replace | spec/subschema_spec.rb:95-102 | replacing by branch definitions keeps the remaining list's length and identifiers, position by position |
| Overlay.Extra | spec/subschema_spec.rb:101-105 | the appended branch fields are exactly the branch identifiers not yet taken |
| Overlay.Apply | spec/subschema_spec.rb:95-105 | the effective list after a selection declares exactly the identifiers of the remaining list and of the branch, and each of its fields comes from one of the two lists; see also ApplyPositions and ApplyPrecedence |
| Overlay.ApplyPositions | spec/subschema_spec.rb:101-105 | a replaced field keeps the position of the field it replaces; branch-only fields come after |
| Overlay.ApplyPrecedence | spec/subschema_spec.rb:95-102 | the branch's definition of an identifier wins over the parent's; every other identifier keeps its definition |
| ErrorPaths.AddError | spec/subschema_spec.rb:43 | appends one message under one path and leaves every other path alone |
| ErrorPaths.Merge | spec/subschema_spec.rb:174 | joining error maps keeps every path of both, the first map's messages first |
| Resolver.RecordField | spec/subschema_spec.rb:41-44 | a dropped field writes nothing; a kept field writes its value, or its inline schema's output, and its error at `path.key`, followed by the inline schema's errors |
| Resolver.ResolveFields | spec/subschema_spec.rb:91-119 | one level of resolution, fields in order, with selections overlaying branches; its contract is carried by FieldsErrorsWellFormed, FieldsErrorPaths, FieldsOutputKeys, FieldsOutputKeysUnmutated, SelectedBranchOnly, FieldsErrorPathsUnmutated, FieldsExtend, DeclaredMissingSkipped, DeclaredMissingSelects, RequiredMissingRecorded and RequiredMissingSelects |
| Resolver.ResolveSchema | spec/subschema_spec.rb:110-116 | resolves a (possibly inline) schema at a path; its contract is carried by SchemaErrorsWellFormed and SchemaErrorPaths |
| ResolverFacts.Resolve | spec/subschema_spec.rb:36-44 | every error of `resolve` sits at `$.key` or deeper with at least one message; only identifiers the schema or its branches declare are written; for a schema without inline schemas every error sits exactly at `$.key` for a declared `key`, whatever was selected |
| ResolverFacts.FieldsErrorsWellFormed | spec/subschema_spec.rb:169-174 | every error path a level produces lies under the level's path and holds at least one message |
| ResolverFacts.SchemaErrorsWellFormed | spec/subschema_spec.rb:169-174 | the same for a schema resolved at any path |
| ResolverFacts.FieldsOutputKeys | spec/subschema_spec.rb:41-44 | output identifiers come only from what was recorded, the level's fields and the branches in scope |
| ResolverFacts.FieldsOutputKeysAfterSelection | spec/subschema_spec.rb:41-44 | after a selection the same bound still holds with the branch overlaid |
| ResolverFacts.FieldsErrorPaths | spec/subschema_spec.rb:41-44 | at a level without inline schemas every new error path is `path.key` for an identifier of the level or of a branch in scope: a selection adds no path segment |
| ResolverFacts.SchemaErrorPaths | spec/subschema_spec.rb:71-80 | the same for a whole schema without inline schemas, resolved at any path |
| ResolverFacts.FieldsOutputKeysUnmutated | spec/subschema_spec.rb:105-108 | a level none of whose fields mutates writes only its own identifiers |
| ResolverFacts.FieldsErrorPathsUnmutated | spec/subschema_spec.rb:105-108 | a level with no mutating field and no inline schema reports errors only at `path.key` for its own identifiers |
| ResolverFacts.SelectedBranchOnly | spec/subschema_spec.rb:41-44 | once a field selects branch `name` and nothing later selects again, only the level's identifiers and `name`'s are written, and, without inline schemas, errors sit only at `path.key` for those identifiers: an unselected sibling branch contributes neither output nor errors |
| ResolverFacts.FieldsExtend | spec/subschema_spec.rb:138-141 | resolving more fields never drops a recorded identifier or message |
| ResolverFacts.DeclaredMissingSkipped | spec/subschema_spec.rb:95 | a non-mutating field whose missing key reaches `declared` (every earlier policy passes nil) contributes neither output nor error, and the level goes on |
| ResolverFacts.DeclaredMissingSelects | spec/subschema_spec.rb:92-94 | a mutating field whose missing key reaches `declared` writes nothing, and the branch its selector names for nil takes over the rest of the level |
| ResolverFacts.RequiredMissingRecorded | spec/subschema_spec.rb:41-44 | a non-mutating field whose missing key reaches `required` (every earlier policy passes nil) is output as nil with `"is required"` at its path, and the level goes on |
| ResolverFacts.RequiredMissingSelects | spec/subschema_spec.rb:10-12 | a mutating field whose missing key reaches `required` is output as nil with `"is required"` at its path, and the branch its selector names for nil takes over the rest of the level |
| Structure.Describe | spec/subschema_spec.rb:64-85 | `structure` has empty `_errors`, one `_subschemes` entry per declared branch, field entries only for declared identifiers (all of them with `ignore_transparent: false`), and no transparent entry by default |
| Structure.DescribeFields | spec/subschema_spec.rb:74-77 | one level's entries: only declared identifiers, every one of them when transparent fields are shown, and none flagged transparent when they are hidden |
| Structure.DescribeListsAllBranches | spec/subschema_spec.rb:64-70 | `structure` lists exactly the declared branches at every depth, whatever a payload would select, with `_errors` empty |
| Structure.DescribeCovers | spec/subschema_spec.rb:74-77 | `structure(ignore_transparent: false)` is `structure` plus transparent entries only, at every depth |
| Structure.FieldsCover | spec/subschema_spec.rb:74-77 | the same for the field entries of one level |
| Structure.EntriesAreDeclaredFlags | spec/subschema_spec.rb:67-68 | each entry reports the flags of its identifier's declaration, and hidden entries are never reported |
| ExampleFields.DslPresentField | lib/paradocs/field_dsl.rb:12-14 | `field(key).present` is the example `present` field |
| ExampleFields.DslRequiredField | lib/paradocs/field_dsl.rb:8-10 | `field(key).required` is the example `required` field |
| RequestScenarios.DslActionField | spec/subschema_spec.rb:10-12 | the chained declaration of `action` builds the modelled field |
| RequestScenarios.ActionPasses | spec/subschema_spec.rb:10 | `action: :update` or `:delete` passes `present.options` unchanged |
| RequestScenarios.DslRequestSchema | spec/subschema_spec.rb:9-21 | the `schema(:request)` block builds the modelled schema |
| RequestScenarios.RequestUpdatePrefix | spec/subschema_spec.rb:10-16 | `action: :update` selects `update_schema`, leaving `event` to resolve |
| RequestScenarios.UpdateRequestValid | spec/subschema_spec.rb:36-39 | `{action: :update, event: "test"}` resolves to itself without errors |
| RequestScenarios.RequestMissingAction | spec/subschema_spec.rb:9-20 | `{}` outputs a nil `action` and a nil `generic_field`, with `"is required"` at `$.action` and at `$.generic_field`: the selector, given nil, picks `generic_schema` |
| RequestScenarios.UpdateRequestMissingEvent | spec/subschema_spec.rb:41-44 | the missing `event` is output as nil with `"is required"` at `$.event`; the unselected branch's `generic_field` is in neither output nor errors |
| GhostScenarios.DslGhostField | spec/subschema_spec.rb:50-52 | `mutation_by!(:error)` builds the modelled ghost field |
| GhostScenarios.DslGhostSchema | spec/subschema_spec.rb:49-60 | `mutation_by!(:error)` followed by `subschema(:fail)` and `subschema(:success)` builds the modelled schema |
| GhostScenarios.GhostSelects | spec/subschema_spec.rb:50-60 | the ghost field keeps the raw `error` value when present and selects `fail` or `success` by it |
| GhostScenarios.GhostKeyPresent | spec/subschema_spec.rb:71-73 | `{error: :here}` outputs `error` and a nil `fail_field`, with `"is required"` at `$.fail_field` |
| GhostScenarios.GhostKeyAbsent | spec/subschema_spec.rb:79-81 | `{}` selects `success`, outputs only a nil `success_field`, with `"is required"` at `$.success_field` |
| GhostScenarios.DescribePresentBranch | spec/subschema_spec.rb:67-68 | a one-`present`-field branch is described with no branches and one `{required, present}` entry |
| GhostScenarios.GhostSubschemes | spec/subschema_spec.rb:66-69 | `_subschemes` describes `fail` and `success` |
| GhostScenarios.GhostEntries | spec/subschema_spec.rb:74-76 | the ghost field's entry appears only with `ignore_transparent: false`, with its two flags |
| GhostScenarios.GhostStructure | spec/subschema_spec.rb:64-85 | both `structure` results of the ghost-field schema, exactly |
| NestedScenarios.DslDeclaredEvent | spec/subschema_spec.rb:95 | `field(:event).declared.type(:string)` builds the modelled field |
| NestedScenarios.DslAnotherEventField | spec/subschema_spec.rb:114 | `field(:another_event).present.type(:boolean)` builds the modelled field |
| NestedScenarios.DslMutatingEvent | spec/subschema_spec.rb:102-104 | `field(:event).present.mutates_schema!` builds the modelled mutating `event` |
| NestedScenarios.DslKeyField | spec/subschema_spec.rb:112 | `field(:key).present.mutates_schema!` builds the modelled `key` field |
| NestedScenarios.DslHashSchema | spec/subschema_spec.rb:112-115 | the `.schema` block of `a_hash` builds the modelled inline schema |
| NestedScenarios.DslUpdateSchema | spec/subschema_spec.rb:101-117 | the `subschema(:update_schema)` block builds the modelled branch |
| NestedScenarios.DslDeepSchema | spec/subschema_spec.rb:91-119 | the nested example's top-level block builds the modelled schema |
| NestedScenarios.DslHashField | spec/subschema_spec.rb:111 | `field(:a_hash).type(:object).present.schema` builds the modelled field |
| NestedScenarios.UpdateOverlay | spec/subschema_spec.rb:101-105 | selecting `update_schema` replaces the declared `event` in place by the branch's mutating one, then appends `update_field` |
| NestedScenarios.GenericOverlay | spec/subschema_spec.rb:95-99 | selecting `generic_schema` keeps the top-level `event` and appends `generic_field` |
| NestedScenarios.TopSelects | spec/subschema_spec.rb:92-94 | `action` selects `update_schema` for `:update` and `generic_schema` otherwise |
| NestedScenarios.TopSelectsUpdate | spec/subschema_spec.rb:92-105 | after `action: :update` the level holds the mutating `event` and `update_field`, with `update_schema`'s branches in scope |
| NestedScenarios.UpdateScopeBranches | spec/subschema_spec.rb:106-117 | `update_schema`'s branches are in scope once it is selected |
| NestedScenarios.EventSelects | spec/subschema_spec.rb:102-104 | inside `update_schema`, `event: :go_deeper` selects `very_deep_schema` and any other value `deep_update_schema` |
| NestedScenarios.UpdatePrefix | spec/subschema_spec.rb:92-105 | the two selections of the `update_schema` paths, with `action` and `event` recorded |
| NestedScenarios.DeepUpdateTail | spec/subschema_spec.rb:105-108 | `update_field` and a nil `field_from_deep_schema` are copied without errors |
| NestedScenarios.DeepUpdateValid | spec/subschema_spec.rb:122-136 | the `deep_update_schema` payload resolves to itself without errors |
| NestedScenarios.DeletePrefix | spec/subschema_spec.rb:138-139 | `action: :delete` selects `generic_schema` under the top-level `event` |
| NestedScenarios.DeleteTail | spec/subschema_spec.rb:138-141 | the declared `event` is coerced to a string and the missing `generic_field` is reported at `$.generic_field` |
| NestedScenarios.DeleteSelectsGeneric | spec/subschema_spec.rb:138-142 | the `action: :delete` payload resolves to exactly the expected output and error |
| NestedScenarios.HashSelects | spec/subschema_spec.rb:111-116 | inside `a_hash`, `key` selects `draft_subschema` |
| NestedScenarios.HashSchemaValid | spec/subschema_spec.rb:156-159 | a valid `a_hash` resolves to `key` and `another_event: true` without errors |
| NestedScenarios.HashSchemaMissing | spec/subschema_spec.rb:169-174 | a missing `another_event` is nil with `"is required"` at `path.another_event` |
| NestedScenarios.VeryDeepTail | spec/subschema_spec.rb:110-116 | `a_hash` is output as its inline schema's output, whose errors become the level's |
| NestedScenarios.VeryDeepThrough | spec/subschema_spec.rb:150-161 | the `very_deep_schema` path for any `a_hash` whose inline schema resolves |
| NestedScenarios.VeryDeepValid | spec/subschema_spec.rb:163-167 | the `very_deep_schema` payload resolves to itself without errors |
| NestedScenarios.VeryDeepMissing | spec/subschema_spec.rb:169-175 | `a_hash: {key: :random}` outputs a nil `another_event` inside `a_hash`, with `"is required"` at `$.a_hash.another_event` |

## Left out

- The implementation of fields, schemas and the policy registry (`schema.rb`, `field.rb`, the policies directory) is not part of this model.
- Policies.RunFrom: the pipeline stops at the first failing policy. Evidence: `spec/subschema_spec.rb:43` expects one `"is required"` for a missing `present` field, although both its policies fail on nil.
- Policies.Run: a field whose key is missing and whose policies all pass is dropped, not output as nil. Evidence: `spec/subschema_spec.rb:81` expects `{success_field: nil}` for `{}`, with no entry for the policy-less `error` field. No example has a non-transparent field of that kind.
- Policies.RequiredMissing: a `type` policy before `required`, as in `type(:object).present` at `spec/subschema_spec.rb:111`, lets a missing key reach `required` only when the coercion maps nil to nil (see PassesNilPolicies). The registry's treatment of nil is not part of this model, so a missing `a_hash` is not proved to report `"is required"`.
- ResolverFacts.RequiredMissingRecorded: covers the same policy lists as Policies.RequiredMissing, for the same reason, and so does RequiredMissingSelects for a mutating field.
- Policies.DeclaredMissing: a `type` policy before `declared`, as `field(:event).type(:string).declared` would build, lets a missing key reach `declared` only when the coercion maps nil to nil. A coercion that rejects nil records its message instead (MissingFirstFails). The registry's treatment of nil is not part of this model.
- ResolverFacts.DeclaredMissingSkipped: covers the same policy lists as Policies.DeclaredMissing, for the same reason, and so does DeclaredMissingSelects for a mutating field.
- ResolverFacts.FieldsErrorPaths: the exact one-segment bound is proved only for levels without inline schemas. With inline schemas, FieldsErrorsWellFormed states the weaker "at `path.` or deeper".
- ResolverFacts.SelectedBranchOnly: covers one selection per level. A chain of selections on one level is bounded only by FieldsOutputKeys and FieldsErrorPaths, which count every branch in scope. Its error bound is stated only for a level and branch without inline schemas.
- Policies.ApplyPolicy: the `options` failure message is a placeholder (`OptionsMessage`), because its wording is not in the modelled sources.
- Policies.ApplyPolicy: `options` compares the running value with the list, and nil always passes.
- Policies.ApplyPolicy: `present` on an existing blank value reports the same `"is required"` (`RequiredMessage`) as a missing key.
- Policies.ApplyPolicy: a failing `type` keeps the uncoerced value, which is what the field then outputs.
- Resolver.ResolveFields: a branch that redeclares an identifier already resolved on the level, the mutating field's own or any earlier field's, resolves it a second time after the selection: the effective list overlays only the fields after the mutating one and appends every other branch field. A `required` `action` redeclared as `required` by its branch thus reports `"is required"` twice at `$.action` on `{}`.
- Resolver.ResolveFields: a selected branch's sub-schemas join the level's branch table, so a later selector may name them; an inline object schema starts from its own table only.
- SchemaDsl.Upsert: a redeclared identifier keeps its first position and takes the last definition.
- Overlay.Apply: a branch field replacing a parent field takes the parent field's position; branch-only fields follow in branch order.
- Policies.PolicyMeta: `declared` records no flag. Its metadata comes from the policy registry, which is not part of this model.
- Coercion is an abstract parameter. The examples assume only the three cases of `StandardCoercions`, so no coercion table is modelled.
- Resolver.ResolveFields: `MaxDepth` (64) bounds selections plus object nestings along one resolution. Deeper chains fail with `DepthExceeded`, and cyclic sub-schema references are not modelled beyond that bound.
- Resolver.ResolveFields: a selector naming an undeclared branch yields `UnknownSubschema`. The fatal error the engine raises is not modelled beyond that value.
- Resolver.ResolveFields: the selector receives the field's value after its policies, the key and the level's payload.
- Resolver.Descends: a field descends into its inline schema only when it is kept without an error and its value is a hash.
- Output key order is not modelled: outputs are maps.
- The `whitelisted` flag is recorded, but the consumer that uses it for filtered output is outside this model.
- User-supplied blocks that raise, and exceptions generally, are not modelled.
- ResolverFacts: there is no general "errors are empty exactly when the payload is valid" theorem. The examples prove both outcomes for their payloads.
- The example at `spec/subschema_spec.rb:144-147` asserts nothing, so it has no counterpart.
- The DSL host machinery (`include Paradocs::DSL`, class-level schema registries, `validate`) is not modelled. `schema(name) { ... }` is the `Schema` value its block builds.
