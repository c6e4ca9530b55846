/**
 * Nested sub-schemes: a branch that declares branches of its own, a field that
 * overrides a top-level declaration, and an inline object schema with its own
 * mutation.
 */
module NestedScenarios {
  import opened Wrappers
  import opened Values
  import opened Policies
  import opened Schemas
  import opened ErrorPaths
  import opened Resolver
  import opened ResolverFacts
  import opened ExampleFields
  import opened RequestScenarios
  import Overlay
  import FieldDsl

  /** `field(:event).declared.type(:string)` at the top level. */
  function DeclaredEvent(): Field {
    Field("event", [Declared, Type(StringKind)], map["type" := Sym("string")], None, None)
  }

  lemma DslDeclaredEvent()
    ensures FieldDsl.OfType(FieldDsl.Declared(FieldDsl.NewField("event")), StringKind) == DeclaredEvent()
  {
  }

  /** `value == :go_deeper ? :very_deep_schema : :deep_update_schema` */
  function SelectDepth(): Selector {
    (value: Value, key: Key, payload: Record) => if value == Sym("go_deeper") then "very_deep_schema" else "deep_update_schema"
  }

  /** `field(:event).present.mutates_schema! { ... }` inside `update_schema`. */
  function MutatingEvent(): Field {
    Field("event", [Required, Present], map["required" := Yes, "present" := Yes, "mutates_schema" := Yes],
          Some(SelectDepth()), None)
  }

  lemma DslMutatingEvent()
    ensures FieldDsl.MutatesSchema(FieldDsl.Present(FieldDsl.NewField("event")), SelectDepth()) == MutatingEvent()
  {
    DslPresentField("event");
  }

  /** `{ :draft_subschema }` */
  function SelectDraft(): Selector {
    (value: Value, key: Key, payload: Record) => "draft_subschema"
  }

  /** `field(:key).present.mutates_schema! { :draft_subschema }` */
  function KeyField(): Field {
    Field("key", [Required, Present], map["required" := Yes, "present" := Yes, "mutates_schema" := Yes],
          Some(SelectDraft()), None)
  }

  lemma DslKeyField()
    ensures FieldDsl.MutatesSchema(FieldDsl.Present(FieldDsl.NewField("key")), SelectDraft()) == KeyField()
  {
    DslPresentField("key");
  }

  /** `field(:another_event).present.type(:boolean)` */
  function AnotherEventField(): Field {
    Field("another_event", [Required, Present, Type(BooleanKind)],
          map["required" := Yes, "present" := Yes, "type" := Sym("boolean")], None, None)
  }

  lemma DslAnotherEventField()
    ensures FieldDsl.OfType(FieldDsl.Present(FieldDsl.NewField("another_event")), BooleanKind) == AnotherEventField()
  {
    DslPresentField("another_event");
  }

  /** The inline schema of `a_hash`: a mutating `key` and its `draft_subschema`. */
  function HashSchema(): Schema {
    Schema([KeyField()], map["draft_subschema" := Schema([AnotherEventField()], map[])])
  }

  /** The block of `.schema do ... end`, declaration by declaration. */
  lemma DslHashSchema()
    ensures SchemaDsl.Subschema(SchemaDsl.AddField(EmptySchema, KeyField()),
                                "draft_subschema", SchemaDsl.AddField(EmptySchema, AnotherEventField()))
         == HashSchema()
  {
  }

  /** `field(:a_hash).type(:object).present.schema { ... }` */
  function HashField(): Field {
    Field("a_hash", [Type(ObjectKind), Required, Present],
          map["type" := Sym("object"), "required" := Yes, "present" := Yes], None, Some(HashSchema()))
  }

  lemma DslHashField()
    ensures FieldDsl.WithSchema(FieldDsl.Present(FieldDsl.OfType(FieldDsl.NewField("a_hash"), ObjectKind)), HashSchema())
         == HashField()
  {
    var typed := FieldDsl.OfType(FieldDsl.NewField("a_hash"), ObjectKind);
    assert typed.meta == map["type" := Sym("object")];
    var present := FieldDsl.Present(typed);
    assert present.meta == HashField().meta;
  }

  function UpdateSchema(): Schema {
    Schema([MutatingEvent(), PresentField("update_field")], map[
      "deep_update_schema" := Schema([RequiredField("field_from_deep_schema")], map[]),
      "very_deep_schema" := Schema([HashField()], map[])])
  }

  function DeepSchema(): Schema {
    Schema([ActionField(), DeclaredEvent()], map[
      "generic_schema" := Schema([PresentField("generic_field")], map[]),
      "update_schema" := UpdateSchema()])
  }

  /** `subschema(:update_schema) do ... end`, declaration by declaration. */
  lemma DslUpdateSchema()
    ensures SchemaDsl.Subschema(
              SchemaDsl.Subschema(
                SchemaDsl.AddField(SchemaDsl.AddField(EmptySchema, MutatingEvent()), PresentField("update_field")),
                "deep_update_schema", SchemaDsl.AddField(EmptySchema, RequiredField("field_from_deep_schema"))),
              "very_deep_schema", SchemaDsl.AddField(EmptySchema, HashField()))
         == UpdateSchema()
  {
    var fields := SchemaDsl.Upsert([MutatingEvent()], PresentField("update_field"));
    assert KeysOf([MutatingEvent()]) == {"event"};
    assert fields == [MutatingEvent(), PresentField("update_field")];
  }

  /** The top-level block of the nested example, declaration by declaration. */
  lemma DslDeepSchema()
    ensures SchemaDsl.Subschema(
              SchemaDsl.Subschema(
                SchemaDsl.AddField(SchemaDsl.AddField(EmptySchema, ActionField()), DeclaredEvent()),
                "generic_schema", SchemaDsl.AddField(EmptySchema, PresentField("generic_field"))),
              "update_schema", UpdateSchema())
         == DeepSchema()
  {
    var fields := SchemaDsl.Upsert([ActionField()], DeclaredEvent());
    assert KeysOf([ActionField()]) == {"action"};
    assert fields == [ActionField(), DeclaredEvent()];
  }

  /** The branch table once `update_schema` has been selected at the top level. */
  function UpdateScope(): map<string, Schema> {
    DeepSchema().subschemes + UpdateSchema().subschemes
  }

  /** Selecting `update_schema`: its `event` replaces the top-level one in place; `update_field` follows. */
  lemma UpdateOverlay()
    ensures Overlay.Apply([DeclaredEvent()], UpdateSchema().fields) == [MutatingEvent(), PresentField("update_field")]
  {
    var branch := UpdateSchema().fields;
    assert Overlay.Find(branch, "event") == Some(MutatingEvent());
    assert Overlay.Replace([DeclaredEvent()], branch) == [MutatingEvent()];
    assert KeysOf([DeclaredEvent()]) == {"event"};
    assert Overlay.Extra(branch[1..], {"event"} + {}) == [PresentField("update_field")];
    assert Overlay.Extra(branch, {"event"}) == [PresentField("update_field")];
  }

  /** Selecting `generic_schema`: the top-level declared `event` stays, `generic_field` follows. */
  lemma GenericOverlay()
    ensures Overlay.Apply([DeclaredEvent()], [PresentField("generic_field")]) == [DeclaredEvent(), PresentField("generic_field")]
  {
    assert Overlay.Find([PresentField("generic_field")], "event") == None;
    assert Overlay.Replace([DeclaredEvent()], [PresentField("generic_field")]) == [DeclaredEvent()];
    assert KeysOf([DeclaredEvent()]) == {"event"};
  }

  /** The top-level `action` selects `update_schema` or `generic_schema`, overlaid on the declared `event`. */
  lemma TopSelects(input: Record, coerce: Coercer, name: string)
    requires "action" in input && input["action"] in UpdateOrDelete
    requires name == (if input["action"] == Sym("update") then "update_schema" else "generic_schema")
    ensures name in DeepSchema().subschemes
    ensures Resolve(DeepSchema(), input, coerce)
         == ResolveFields(Overlay.Apply([DeclaredEvent()], DeepSchema().subschemes[name].fields),
                          DeepSchema().subschemes + DeepSchema().subschemes[name].subschemes,
                          input, Root, coerce, MaxDepth - 1, Resolution(map["action" := input["action"]], map[]))
  {
    var s := DeepSchema();
    var o := Outcome(true, input["action"], None);
    ActionPasses(input, coerce);
    SelectStep(s.fields, s.subschemes, input, Root, coerce, MaxDepth, Empty, o, name);
    assert s.fields[1..] == [DeclaredEvent()];
    assert RecordField(Empty, "action", o, None, Root) == Resolution(map["action" := input["action"]], map[]);
  }

  /** What the top-level selection of `update_schema` leaves to resolve. */
  lemma TopSelectsUpdate(input: Record, coerce: Coercer)
    requires "action" in input && input["action"] == Sym("update")
    ensures Resolve(DeepSchema(), input, coerce)
         == ResolveFields([MutatingEvent(), PresentField("update_field")], UpdateScope(),
                          input, Root, coerce, MaxDepth - 1, Resolution(map["action" := Sym("update")], map[]))
  {
    TopSelects(input, coerce, "update_schema");
    assert DeepSchema().subschemes["update_schema"] == UpdateSchema();
    UpdateOverlay();
  }

  /** The branches `update_schema` adds, as seen from its scope. */
  lemma UpdateScopeBranches()
    ensures "deep_update_schema" in UpdateScope() && "very_deep_schema" in UpdateScope()
    ensures UpdateScope()["deep_update_schema"] == Schema([RequiredField("field_from_deep_schema")], map[])
    ensures UpdateScope()["very_deep_schema"] == Schema([HashField()], map[])
  {
  }

  /** Inside `update_schema`, `event` selects one of its two branches, whose one field follows `update_field`. */
  lemma EventSelects(input: Record, scope: map<string, Schema>, coerce: Coercer, fuel: nat, acc: Resolution,
                      next: string, f: Field)
    requires "event" in input && !Blank(input["event"])
    requires next == (if input["event"] == Sym("go_deeper") then "very_deep_schema" else "deep_update_schema")
    requires next in scope && scope[next] == Schema([f], map[])
    requires f.key != "update_field"
    requires fuel > 0
    ensures ResolveFields([MutatingEvent(), PresentField("update_field")], scope, input, Root, coerce, fuel, acc)
         == ResolveFields([PresentField("update_field"), f], scope, input, Root, coerce, fuel - 1,
                          RecordField(acc, "event", Outcome(true, input["event"], None), None, Root))
  {
    var fields := [MutatingEvent(), PresentField("update_field")];
    var o := Outcome(true, input["event"], None);
    PresentPasses("event", input, coerce);
    SelectStep(fields, scope, input, Root, coerce, fuel, acc, o, next);
    assert scope + scope[next].subschemes == scope;
    assert fields[1..] == [PresentField("update_field")];
    SingleOverlay([PresentField("update_field")], f);
  }

  /** The steps shared by the `update_schema` paths: `action`, then the branch's `event`. */
  lemma UpdatePrefix(input: Record, coerce: Coercer, next: string, f: Field)
    requires "action" in input && input["action"] == Sym("update")
    requires "event" in input && !Blank(input["event"])
    requires next == (if input["event"] == Sym("go_deeper") then "very_deep_schema" else "deep_update_schema")
    requires f == (if next == "very_deep_schema" then HashField() else RequiredField("field_from_deep_schema"))
    ensures Resolve(DeepSchema(), input, coerce)
         == ResolveFields([PresentField("update_field"), f], UpdateScope(), input, Root, coerce, MaxDepth - 2,
                          Resolution(map["action" := Sym("update"), "event" := input["event"]], map[]))
  {
    var acc1 := Resolution(map["action" := Sym("update")], map[]);
    TopSelectsUpdate(input, coerce);
    UpdateScopeBranches();
    EventSelects(input, UpdateScope(), coerce, MaxDepth - 1, acc1, next, f);
    assert RecordField(acc1, "event", Outcome(true, input["event"], None), None, Root)
        == Resolution(map["action" := Sym("update"), "event" := input["event"]], map[]);
  }

  // ----- `update_schema -> deep_update_schema` -----

  /** The payload of the `update_schema -> deep_update_schema` examples. */
  function DeepPayload(): Record {
    map["action" := Sym("update"), "event" := Sym("must_be_present"),
        "update_field" := Int(1), "field_from_deep_schema" := Nil]
  }

  /** The `deep_update_schema` tail: `update_field` and `field_from_deep_schema` are copied as given. */
  lemma DeepUpdateTail(payload: Record, scope: map<string, Schema>, coerce: Coercer, fuel: nat, acc: Resolution)
    requires "update_field" in payload && payload["update_field"] == Int(1)
    requires "field_from_deep_schema" in payload && payload["field_from_deep_schema"] == Nil
    requires acc.errors == map[]
    ensures ResolveFields([PresentField("update_field"), RequiredField("field_from_deep_schema")], scope, payload,
                          Root, coerce, fuel, acc)
         == Success(Resolution(acc.output["update_field" := Int(1)]["field_from_deep_schema" := Nil], map[]))
  {
    var deep := RequiredField("field_from_deep_schema");
    var fields := [PresentField("update_field"), deep];
    PresentPasses("update_field", payload, coerce);
    PlainStep(fields, scope, payload, Root, coerce, fuel, acc, Outcome(true, Int(1), None));
    assert fields[1..] == [deep];
    var acc3 := Resolution(acc.output["update_field" := Int(1)], map[]);
    RequiredPasses("field_from_deep_schema", payload, coerce);
    LastStep(deep, scope, payload, Root, coerce, fuel, acc3, Outcome(true, Nil, None));
  }

  /** `update_schema -> deep_update_schema`: the payload resolves to itself; a nil under `.required` is fine. */
  lemma DeepUpdateValid(payload: Record, coerce: Coercer)
    requires payload == DeepPayload()
    ensures Resolve(DeepSchema(), payload, coerce) == Success(Resolution(payload, map[]))
  {
    assert "action" in payload && payload["action"] == Sym("update");
    assert "event" in payload && payload["event"] == Sym("must_be_present");
    assert "update_field" in payload && payload["update_field"] == Int(1);
    assert "field_from_deep_schema" in payload && payload["field_from_deep_schema"] == Nil;
    var acc2 := Resolution(map["action" := Sym("update"), "event" := Sym("must_be_present")], map[]);
    UpdatePrefix(payload, coerce, "deep_update_schema", RequiredField("field_from_deep_schema"));
    DeepUpdateTail(payload, UpdateScope(), coerce, MaxDepth - 2, acc2);
    assert acc2.output["update_field" := Int(1)]["field_from_deep_schema" := Nil] == payload;
  }

  /** The same payload with `action: :delete`. */
  function DeletePayload(): Record {
    map["action" := Sym("delete"), "event" := Sym("must_be_present"),
        "update_field" := Int(1), "field_from_deep_schema" := Nil]
  }

  /** `action: :delete` passes its options and selects `generic_schema`. */
  lemma DeletePrefix(payload: Record, coerce: Coercer)
    requires "action" in payload && payload["action"] == Sym("delete")
    ensures Resolve(DeepSchema(), payload, coerce)
         == ResolveFields([DeclaredEvent(), PresentField("generic_field")], DeepSchema().subschemes,
                          payload, Root, coerce, MaxDepth - 1, Resolution(map["action" := Sym("delete")], map[]))
  {
    TopSelects(payload, coerce, "generic_schema");
    var branch := DeepSchema().subschemes["generic_schema"];
    assert branch == Schema([PresentField("generic_field")], map[]);
    GenericOverlay();
    assert DeepSchema().subschemes + branch.subschemes == DeepSchema().subschemes;
  }

  /** The `generic_schema` tail: `event` is kept as a string, `generic_field` is missing. */
  lemma DeleteTail(payload: Record, scope: map<string, Schema>, coerce: Coercer, fuel: nat, acc: Resolution)
    requires "event" in payload && payload["event"] == Sym("must_be_present")
    requires "generic_field" !in payload
    requires StandardCoercions(coerce)
    requires acc.errors == map[]
    ensures ResolveFields([DeclaredEvent(), PresentField("generic_field")], scope, payload, Root, coerce, fuel, acc)
         == Success(Resolution(acc.output["event" := Str("must_be_present")]["generic_field" := Nil],
                               map[Child(Root, "generic_field") := [RequiredMessage]]))
  {
    var generic := PresentField("generic_field");
    var fields := [DeclaredEvent(), generic];
    var v := Str("must_be_present");
    assert coerce(StringKind, Sym("must_be_present")) == Coerced(v);
    DeclaredTypedPasses(StringKind, "event", payload, coerce, v);
    PlainStep(fields, scope, payload, Root, coerce, fuel, acc, Outcome(true, v, None));
    assert fields[1..] == [generic];
    var acc2 := Resolution(acc.output["event" := v], map[]);
    RequiredFirstMissing(generic.policies, "generic_field", payload, coerce);
    LastStep(generic, scope, payload, Root, coerce, fuel, acc2, Outcome(true, Nil, Some(RequiredMessage)));
    AddErrorToEmpty(Child(Root, "generic_field"), RequiredMessage);
  }

  /**
   * `action: :delete` selects `generic_schema`: the top-level declared `event` is
   * kept and coerced to a string, the update-only keys are dropped, and the missing
   * `generic_field` is reported at `$.generic_field`.
   */
  lemma DeleteSelectsGeneric(payload: Record, coerce: Coercer)
    requires payload == DeletePayload()
    requires StandardCoercions(coerce)
    ensures Resolve(DeepSchema(), payload, coerce)
         == Success(Resolution(map["action" := Sym("delete"), "event" := Str("must_be_present"), "generic_field" := Nil],
                               map["$.generic_field" := [RequiredMessage]]))
  {
    assert "action" in payload && payload["action"] == Sym("delete");
    assert "event" in payload && payload["event"] == Sym("must_be_present");
    assert "generic_field" !in payload;
    DeletePrefix(payload, coerce);
    DeleteTail(payload, DeepSchema().subschemes, coerce, MaxDepth - 1, Resolution(map["action" := Sym("delete")], map[]));
    ExamplePaths();
  }

  // ----- `update_schema -> very_deep_schema -> draft_subschema` -----

  /** Inside `a_hash`, `key` selects `draft_subschema`, leaving `another_event` to resolve. */
  lemma HashSelects(entries: Record, path: string, coerce: Coercer, fuel: nat)
    requires "key" in entries && !Blank(entries["key"])
    requires fuel > 0
    ensures ResolveSchema(HashSchema(), entries, path, coerce, fuel)
         == ResolveFields([AnotherEventField()], HashSchema().subschemes, entries, path, coerce, fuel - 1,
                          Resolution(map["key" := entries["key"]], map[]))
  {
    var s := HashSchema();
    var o := Outcome(true, entries["key"], None);
    PresentPasses("key", entries, coerce);
    SelectStep(s.fields, s.subschemes, entries, path, coerce, fuel, Empty, o, "draft_subschema");
    SingleOverlay([], AnotherEventField());
    assert s.fields[1..] == [];
    assert s.subschemes + s.subschemes["draft_subschema"].subschemes == s.subschemes;
  }

  /** Inside `a_hash`: `key` selects `draft_subschema`, whose `another_event` is present and true. */
  lemma HashSchemaValid(entries: Record, path: string, coerce: Coercer, fuel: nat)
    requires "key" in entries && !Blank(entries["key"])
    requires "another_event" in entries && entries["another_event"] == Bool(true)
    requires StandardCoercions(coerce)
    requires fuel > 0
    ensures ResolveSchema(HashSchema(), entries, path, coerce, fuel)
         == Success(Resolution(map["key" := entries["key"], "another_event" := Bool(true)], map[]))
  {
    HashSelects(entries, path, coerce, fuel);
    assert coerce(BooleanKind, Bool(true)) == Coerced(Bool(true));
    PresentTypedPasses(BooleanKind, "another_event", entries, coerce, Bool(true));
    LastStep(AnotherEventField(), HashSchema().subschemes, entries, path, coerce, fuel - 1,
             Resolution(map["key" := entries["key"]], map[]), Outcome(true, Bool(true), None));
  }

  /** Inside `a_hash`: `draft_subschema` is selected and its missing `another_event` is reported under `path`. */
  lemma HashSchemaMissing(entries: Record, path: string, coerce: Coercer, fuel: nat)
    requires "key" in entries && !Blank(entries["key"])
    requires "another_event" !in entries
    requires fuel > 0
    ensures ResolveSchema(HashSchema(), entries, path, coerce, fuel)
         == Success(Resolution(map["key" := entries["key"], "another_event" := Nil],
                               map[Child(path, "another_event") := [RequiredMessage]]))
  {
    HashSelects(entries, path, coerce, fuel);
    RequiredFirstMissing(AnotherEventField().policies, "another_event", entries, coerce);
    LastStep(AnotherEventField(), HashSchema().subschemes, entries, path, coerce, fuel - 1,
             Resolution(map["key" := entries["key"]], map[]), Outcome(true, Nil, Some(RequiredMessage)));
    AddErrorToEmpty(Child(path, "another_event"), RequiredMessage);
  }

  /**
   * The `very_deep_schema` tail: `update_field` is copied and `a_hash` is replaced
   * by the output of its inline schema, resolved under `$.a_hash`, whose errors
   * become the level's errors.
   */
  lemma VeryDeepTail(payload: Record, scope: map<string, Schema>, coerce: Coercer, fuel: nat,
                     acc: Resolution, res: Resolution)
    requires "update_field" in payload && payload["update_field"] == Int(1)
    requires "a_hash" in payload && payload["a_hash"].Hash? && payload["a_hash"].entries != map[]
    requires StandardCoercions(coerce)
    requires fuel > 0 && acc.errors == map[]
    requires ResolveSchema(HashSchema(), payload["a_hash"].entries, Child(Root, "a_hash"), coerce, fuel - 1) == Success(res)
    ensures ResolveFields([PresentField("update_field"), HashField()], scope, payload, Root, coerce, fuel, acc)
         == Success(Resolution(acc.output["update_field" := Int(1)]["a_hash" := Hash(res.output)], res.errors))
  {
    var hash := HashField();
    var fields := [PresentField("update_field"), hash];
    PresentPasses("update_field", payload, coerce);
    PlainStep(fields, scope, payload, Root, coerce, fuel, acc, Outcome(true, Int(1), None));
    assert fields[1..] == [hash];
    var acc3 := Resolution(acc.output["update_field" := Int(1)], map[]);
    var v := payload["a_hash"];
    var o := Outcome(true, v, None);
    assert coerce(ObjectKind, v) == Coerced(v);
    TypedPresentPasses(ObjectKind, "a_hash", payload, coerce, v);
    NestedStep([hash], scope, payload, Root, coerce, fuel, acc3, o, res);
    assert [hash][1..] == [];
    MergeIntoEmpty(res.errors);
  }

  /** The payload of the `update_schema -> very_deep_schema -> draft_subschema` examples. */
  function VeryDeepPayload(): Record {
    map["action" := Sym("update"), "event" := Sym("go_deeper"), "update_field" := Int(1),
        "a_hash" := Hash(map["key" := Sym("value"), "another_event" := Bool(true)])]
  }

  /**
   * The `very_deep_schema` path for any `a_hash` whose inline schema resolves to `res`:
   * `a_hash` is output as `res`'s output, and `res`'s errors are the only errors.
   */
  lemma VeryDeepThrough(payload: Record, coerce: Coercer, res: Resolution)
    requires "action" in payload && payload["action"] == Sym("update")
    requires "event" in payload && payload["event"] == Sym("go_deeper")
    requires "update_field" in payload && payload["update_field"] == Int(1)
    requires "a_hash" in payload && payload["a_hash"].Hash? && payload["a_hash"].entries != map[]
    requires StandardCoercions(coerce)
    requires ResolveSchema(HashSchema(), payload["a_hash"].entries, Child(Root, "a_hash"), coerce, MaxDepth - 3) == Success(res)
    ensures Resolve(DeepSchema(), payload, coerce)
         == Success(Resolution(map["action" := Sym("update"), "event" := Sym("go_deeper"), "update_field" := Int(1),
                                   "a_hash" := Hash(res.output)], res.errors))
  {
    UpdatePrefix(payload, coerce, "very_deep_schema", HashField());
    var acc2 := Resolution(map["action" := Sym("update"), "event" := Sym("go_deeper")], map[]);
    VeryDeepTail(payload, UpdateScope(), coerce, MaxDepth - 2, acc2, res);
  }

  /** Two selections and an inline object schema later, the payload resolves to itself. */
  lemma VeryDeepValid(payload: Record, coerce: Coercer)
    requires payload == VeryDeepPayload()
    requires StandardCoercions(coerce)
    ensures Resolve(DeepSchema(), payload, coerce) == Success(Resolution(payload, map[]))
  {
    var entries := map["key" := Sym("value"), "another_event" := Bool(true)];
    assert "a_hash" in payload && payload["a_hash"] == Hash(entries);
    assert "key" in entries && entries["key"] == Sym("value");
    HashSchemaValid(entries, Child(Root, "a_hash"), coerce, MaxDepth - 3);
    VeryDeepThrough(payload, coerce, Resolution(entries, map[]));
  }

  /** The very-deep payload with `a_hash: {key: :random}`. */
  function RandomKeyPayload(): Record {
    map["action" := Sym("update"), "event" := Sym("go_deeper"), "update_field" := Int(1),
        "a_hash" := Hash(map["key" := Sym("random")])]
  }

  /**
   * With `a_hash: {key: :random}` the nested `draft_subschema` misses `another_event`:
   * it is output as nil inside `a_hash`, and its error path carries the `a_hash` segment.
   */
  lemma VeryDeepMissing(payload: Record, coerce: Coercer)
    requires payload == RandomKeyPayload()
    requires StandardCoercions(coerce)
    ensures Resolve(DeepSchema(), payload, coerce)
         == Success(Resolution(map["action" := Sym("update"), "event" := Sym("go_deeper"), "update_field" := Int(1),
                                   "a_hash" := Hash(map["key" := Sym("random"), "another_event" := Nil])],
                               map["$.a_hash.another_event" := [RequiredMessage]]))
  {
    var entries := map["key" := Sym("random")];
    assert "a_hash" in payload && payload["a_hash"] == Hash(entries);
    assert "key" in entries && entries["key"] == Sym("random");
    HashSchemaMissing(entries, Child(Root, "a_hash"), coerce, MaxDepth - 3);
    ExamplePaths();
    VeryDeepThrough(payload, coerce,
                    Resolution(map["key" := Sym("random"), "another_event" := Nil], map["$.a_hash.another_event" := [RequiredMessage]]));
  }
}
