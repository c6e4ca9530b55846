/** `schema(:request)`: a mutating `action` choosing between two branches. */
module RequestScenarios {
  import opened Wrappers
  import opened Values
  import opened Policies
  import opened Schemas
  import opened ErrorPaths
  import opened Resolver
  import opened ResolverFacts
  import opened ExampleFields
  import Overlay
  import FieldDsl
  import SchemaDsl

  const UpdateOrDelete := [Sym("update"), Sym("delete")]

  /** `action == :update ? :update_schema : :generic_schema` */
  function SelectAction(): Selector {
    (action: Value, key: Key, payload: Record) => if action == Sym("update") then "update_schema" else "generic_schema"
  }

  /** `field(:action).present.options([:update, :delete]).mutates_schema! { ... }` */
  function ActionField(): Field {
    Field("action", [Required, Present, Options(UpdateOrDelete)],
          map["required" := Yes, "present" := Yes, "options" := List(UpdateOrDelete), "mutates_schema" := Yes],
          Some(SelectAction()), None)
  }

  lemma DslActionField()
    ensures FieldDsl.MutatesSchema(FieldDsl.Options(FieldDsl.Present(FieldDsl.NewField("action")), UpdateOrDelete),
                                   SelectAction())
         == ActionField()
  {
    var present := FieldDsl.Present(FieldDsl.NewField("action"));
    DslPresentField("action");
    var options := FieldDsl.Options(present, UpdateOrDelete);
    assert options.meta == map["required" := Yes, "present" := Yes, "options" := List(UpdateOrDelete)];
    var mutating := FieldDsl.MutatesSchema(options, SelectAction());
    assert mutating.meta == ActionField().meta;
  }

  /** `action: :update` or `action: :delete` passes the pipeline unchanged. */
  lemma ActionPasses(input: Record, coerce: Coercer)
    requires "action" in input && input["action"] in UpdateOrDelete
    ensures Run(ActionField().policies, "action", input, coerce) == Outcome(true, input["action"], None)
  {
    PresentOptionPasses(UpdateOrDelete, "action", input, coerce);
  }

  function RequestSchema(): Schema {
    Schema([ActionField()], map[
      "update_schema" := Schema([PresentField("event")], map[]),
      "generic_schema" := Schema([PresentField("generic_field")], map[])])
  }

  /** `schema(:request) do ... end`, declaration by declaration. */
  lemma DslRequestSchema()
    ensures SchemaDsl.Subschema(
              SchemaDsl.Subschema(
                SchemaDsl.AddField(EmptySchema, ActionField()),
                "update_schema", SchemaDsl.AddField(EmptySchema, PresentField("event"))),
              "generic_schema", SchemaDsl.AddField(EmptySchema, PresentField("generic_field")))
         == RequestSchema()
  {
  }

  /** `action: :update` passes its policies and selects `update_schema`, whose only field is `event`. */
  lemma RequestUpdatePrefix(input: Record, coerce: Coercer)
    requires "action" in input && input["action"] == Sym("update")
    ensures Resolve(RequestSchema(), input, coerce)
         == ResolveFields([PresentField("event")], RequestSchema().subschemes, input, Root, coerce, MaxDepth - 1,
                          Resolution(map["action" := Sym("update")], map[]))
  {
    var s := RequestSchema();
    var o := Outcome(true, Sym("update"), None);
    ActionPasses(input, coerce);
    SelectStep(s.fields, s.subschemes, input, Root, coerce, MaxDepth, Empty, o, "update_schema");
    SingleOverlay([], PresentField("event"));
    assert s.fields[1..] == [];
    assert Overlay.Apply(s.fields[1..], s.subschemes["update_schema"].fields) == [PresentField("event")];
    assert s.subschemes + s.subschemes["update_schema"].subschemes == s.subschemes;
    assert RecordField(Empty, "action", o, None, Root) == Resolution(map["action" := Sym("update")], map[]);
  }

  /** `{action: :update, event: "test"}` resolves to itself without errors. */
  lemma UpdateRequestValid(input: Record, coerce: Coercer)
    requires input == map["action" := Sym("update"), "event" := Str("test")]
    ensures Resolve(RequestSchema(), input, coerce) == Success(Resolution(input, map[]))
  {
    assert "action" in input && input["action"] == Sym("update");
    assert "event" in input && input["event"] == Str("test");
    RequestUpdatePrefix(input, coerce);
    var o := Outcome(true, Str("test"), None);
    PresentPasses("event", input, coerce);
    LastStep(PresentField("event"), RequestSchema().subschemes, input, Root, coerce, MaxDepth - 1,
             Resolution(map["action" := Sym("update")], map[]), o);
    assert map["action" := Sym("update")]["event" := Str("test")] == input;
  }

  /**
   * With `update_schema` selected, its missing `event` is reported at `$.event`
   * (no segment for the branch) and output as nil, while the other branch's
   * `generic_field`, though in the payload, appears in neither output nor errors.
   */
  lemma UpdateRequestMissingEvent(input: Record, coerce: Coercer)
    requires input == map["action" := Sym("update"), "generic_field" := Str("test")]
    ensures var r := Resolve(RequestSchema(), input, coerce);
            && r == Success(Resolution(map["action" := Sym("update"), "event" := Nil], map["$.event" := [RequiredMessage]]))
            && "generic_field" !in r.value.output
            && forall p :: p in r.value.errors ==> p == "$.event"
  {
    assert "action" in input && input["action"] == Sym("update");
    assert "event" !in input;
    RequestUpdatePrefix(input, coerce);
    var o := Outcome(true, Nil, Some(RequiredMessage));
    RequiredFirstMissing(PresentField("event").policies, "event", input, coerce);
    LastStep(PresentField("event"), RequestSchema().subschemes, input, Root, coerce, MaxDepth - 1,
             Resolution(map["action" := Sym("update")], map[]), o);
    ExamplePaths();
    AddErrorToEmpty("$.event", RequiredMessage);
  }

  /**
   * `{}`: the missing `action` is output as nil with "is required" at `$.action`,
   * and its selector, given nil, picks `generic_schema`, whose missing
   * `generic_field` is reported too.
   */
  lemma RequestMissingAction(coerce: Coercer)
    ensures Resolve(RequestSchema(), map[], coerce)
         == Success(Resolution(map["action" := Nil, "generic_field" := Nil],
                               map["$.action" := [RequiredMessage], "$.generic_field" := [RequiredMessage]]))
  {
    var s := RequestSchema();
    var input: Record := map[];
    assert s.fields[0].policies == [] + [Required] + [Present, Options(UpdateOrDelete)];
    RequiredMissingSelects(s.fields, s.subschemes, input, Root, coerce, MaxDepth, Empty,
                           [], [Present, Options(UpdateOrDelete)], "generic_schema");
    SingleOverlay([], PresentField("generic_field"));
    assert s.fields[1..] == [];
    assert s.subschemes + s.subschemes["generic_schema"].subschemes == s.subschemes;
    ExamplePaths();
    AddErrorToEmpty("$.action", RequiredMessage);
    var acc := Resolution(map["action" := Nil], map["$.action" := [RequiredMessage]]);
    RequiredFirstMissing(PresentField("generic_field").policies, "generic_field", input, coerce);
    LastStep(PresentField("generic_field"), s.subschemes, input, Root, coerce, MaxDepth - 1,
             acc, Outcome(true, Nil, Some(RequiredMessage)));
    assert AddError(acc.errors, "$.generic_field", RequiredMessage)
        == map["$.action" := [RequiredMessage], "$.generic_field" := [RequiredMessage]];
  }
}
