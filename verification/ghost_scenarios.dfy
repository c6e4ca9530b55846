/** `mutation_by!(:error)`: an implicit mutation on a raw payload key, and the structure it reports. */
module GhostScenarios {
  import opened Wrappers
  import opened Values
  import opened Policies
  import opened Schemas
  import opened ErrorPaths
  import opened Resolver
  import opened ResolverFacts
  import opened ExampleFields
  import Structure
  import SchemaDsl

  /** `value.nil? ? :success : :fail` */
  function SelectError(): Selector {
    (value: Value, key: Key, payload: Record) => if value == Nil then "success" else "fail"
  }

  /** The synthetic field of `mutation_by!(:error)`. */
  function ErrorGhostField(): Field {
    Field("error", [], map["transparent" := Yes, "mutates_schema" := Yes], Some(SelectError()), None)
  }

  lemma DslGhostField()
    ensures SchemaDsl.GhostField("error", SelectError()) == ErrorGhostField()
  {
  }

  function GhostSchema(): Schema {
    Schema([ErrorGhostField()], map[
      "fail" := Schema([PresentField("fail_field")], map[]),
      "success" := Schema([PresentField("success_field")], map[])])
  }

  /** `Paradocs::Schema.new do mutation_by!(:error) ...; subschema(:fail) ...; subschema(:success) ... end`. */
  lemma DslGhostSchema()
    ensures SchemaDsl.Subschema(
              SchemaDsl.Subschema(
                SchemaDsl.MutationBy(EmptySchema, "error", SelectError()),
                "fail", SchemaDsl.AddField(EmptySchema, PresentField("fail_field"))),
              "success", SchemaDsl.AddField(EmptySchema, PresentField("success_field")))
         == GhostSchema()
  {
    DslGhostField();
  }

  /** The ghost field has no policies, so its outcome is the raw key lookup; it selects a one-field branch. */
  lemma GhostSelects(input: Record, coerce: Coercer, name: string, key: Key)
    requires name == (if "error" in input && input["error"] != Nil then "fail" else "success")
    requires key == (if name == "fail" then "fail_field" else "success_field")
    ensures Resolve(GhostSchema(), input, coerce)
         == ResolveFields([PresentField(key)], GhostSchema().subschemes, input, Root, coerce, MaxDepth - 1,
                          if "error" in input then Resolution(map["error" := input["error"]], map[]) else Empty)
  {
    var s := GhostSchema();
    var o := Outcome("error" in input, Fetch(input, "error"), None);
    NoPolicies("error", input, coerce);
    assert SelectError()(o.value, "error", input) == name;
    SelectStep(s.fields, s.subschemes, input, Root, coerce, MaxDepth, Empty, o, name);
    assert s.subschemes[name] == Schema([PresentField(key)], map[]);
    SingleOverlay([], PresentField(key));
    assert s.fields[1..] == [];
    assert s.subschemes + s.subschemes[name].subschemes == s.subschemes;
  }

  /** With `error` present its raw value is kept and `fail` is selected; `fail_field` is missing. */
  lemma GhostKeyPresent(input: Record, coerce: Coercer)
    requires input == map["error" := Sym("here")]
    ensures Resolve(GhostSchema(), input, coerce)
         == Success(Resolution(map["error" := Sym("here"), "fail_field" := Nil], map["$.fail_field" := [RequiredMessage]]))
  {
    assert "error" in input && input["error"] == Sym("here");
    assert "fail_field" !in input;
    GhostSelects(input, coerce, "fail", "fail_field");
    RequiredFirstMissing(PresentField("fail_field").policies, "fail_field", input, coerce);
    LastStep(PresentField("fail_field"), GhostSchema().subschemes, input, Root, coerce, MaxDepth - 1,
             Resolution(map["error" := Sym("here")], map[]), Outcome(true, Nil, Some(RequiredMessage)));
    ExamplePaths();
    AddErrorToEmpty("$.fail_field", RequiredMessage);
  }

  /** With `error` absent the selector still runs, on nil, and picks `success`; no `error` key is output. */
  lemma GhostKeyAbsent(input: Record, coerce: Coercer)
    requires input == map[]
    ensures Resolve(GhostSchema(), input, coerce)
         == Success(Resolution(map["success_field" := Nil], map["$.success_field" := [RequiredMessage]]))
  {
    GhostSelects(input, coerce, "success", "success_field");
    RequiredFirstMissing(PresentField("success_field").policies, "success_field", input, coerce);
    LastStep(PresentField("success_field"), GhostSchema().subschemes, input, Root, coerce, MaxDepth - 1,
             Empty, Outcome(true, Nil, Some(RequiredMessage)));
    ExamplePaths();
    AddErrorToEmpty("$.success_field", RequiredMessage);
  }

  /** A branch holding one `present` field: no branches of its own and one entry with its two flags. */
  lemma DescribePresentBranch(key: Key, ignoreTransparent: bool)
    ensures Structure.Describe(Schema([PresentField(key)], map[]), ignoreTransparent)
         == Structure.Description([], map[], map[key := Structure.Entry(map["required" := Yes, "present" := Yes], None)])
  {
    var s := Schema([PresentField(key)], map[]);
    assert s.fields[..0] == [];
    assert !IsTransparent(PresentField(key));
    assert Structure.DescribeNested(s, PresentField(key), ignoreTransparent) == None;
    assert Structure.DescribeFields(s, s.fields, ignoreTransparent)
        == map[key := Structure.Entry(map["required" := Yes, "present" := Yes], None)];
    assert Structure.Describe(s, ignoreTransparent).subschemes == map[];
  }

  /** The branch table of `mutation_by!(:error)`, described. */
  function GhostBranches(): map<string, Structure.Description> {
    map["fail" := Structure.Description([], map[],
                    map["fail_field" := Structure.Entry(map["required" := Yes, "present" := Yes], None)]),
        "success" := Structure.Description([], map[],
                    map["success_field" := Structure.Entry(map["required" := Yes, "present" := Yes], None)])]
  }

  lemma GhostSubschemes(ignoreTransparent: bool)
    ensures Structure.Describe(GhostSchema(), ignoreTransparent).subschemes == GhostBranches()
  {
    DescribePresentBranch("fail_field", ignoreTransparent);
    DescribePresentBranch("success_field", ignoreTransparent);
    var s := GhostSchema();
    var d := Structure.Describe(s, ignoreTransparent).subschemes;
    assert s.subschemes["fail"] == Schema([PresentField("fail_field")], map[]);
    assert s.subschemes["success"] == Schema([PresentField("success_field")], map[]);
    assert d["fail"] == GhostBranches()["fail"];
    assert d["success"] == GhostBranches()["success"];
    assert d.Keys == GhostBranches().Keys;
  }

  lemma GhostEntries(ignoreTransparent: bool)
    ensures Structure.Describe(GhostSchema(), ignoreTransparent).fields
         == if ignoreTransparent then map[]
            else map["error" := Structure.Entry(map["transparent" := Yes, "mutates_schema" := Yes], None)]
  {
    var s := GhostSchema();
    assert s.fields[..0] == [];
    assert IsTransparent(ErrorGhostField());
    assert Structure.DescribeNested(s, ErrorGhostField(), ignoreTransparent) == None;
  }

  /**
   * `structure` lists both branches but no entry for the transparent `error` field;
   * `structure(ignore_transparent: false)` adds that entry with its two flags.
   */
  lemma GhostStructure()
    ensures Structure.Describe(GhostSchema(), true) == Structure.Description([], GhostBranches(), map[])
    ensures Structure.Describe(GhostSchema(), false)
         == Structure.Description([], GhostBranches(),
                                  map["error" := Structure.Entry(map["transparent" := Yes, "mutates_schema" := Yes], None)])
  {
    GhostSubschemes(true);
    GhostSubschemes(false);
    GhostEntries(true);
    GhostEntries(false);
  }
}
