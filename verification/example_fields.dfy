/** Field declarations shared by the sub-schema examples, as the field DSL builds them. */
module ExampleFields {
  import opened Wrappers
  import opened Values
  import opened Policies
  import opened Schemas
  import opened ErrorPaths
  import Overlay
  import FieldDsl

  const Yes := Bool(true)

  /** `field(key).present` */
  function PresentField(key: Key): Field {
    Field(key, [Required, Present], map["required" := Yes, "present" := Yes], None, None)
  }

  /** `field(key).required` */
  function RequiredField(key: Key): Field {
    Field(key, [Required], map["required" := Yes], None, None)
  }

  lemma DslPresentField(key: Key)
    ensures FieldDsl.Present(FieldDsl.NewField(key)) == PresentField(key)
  {
  }

  lemma DslRequiredField(key: Key)
    ensures FieldDsl.Required(FieldDsl.NewField(key)) == RequiredField(key)
  {
  }

  /** The error paths the examples report, spelled out. */
  lemma ExamplePaths()
    ensures Child(Root, "action") == "$.action"
    ensures Child(Root, "event") == "$.event"
    ensures Child(Root, "fail_field") == "$.fail_field"
    ensures Child(Root, "success_field") == "$.success_field"
    ensures Child(Root, "generic_field") == "$.generic_field"
    ensures Child(Child(Root, "a_hash"), "another_event") == "$.a_hash.another_event"
  {
  }

  /** A one-field branch selected with at most one other field left at the level. */
  lemma SingleOverlay(rest: seq<Field>, f: Field)
    requires rest == [] || (|rest| == 1 && rest[0].key != f.key)
    ensures Overlay.Apply(rest, [f]) == rest + [f]
  {
    if rest != [] {
      assert Overlay.Find([f], rest[0].key) == None;
      assert Overlay.Replace(rest, [f]) == rest;
      assert KeysOf(rest) == {rest[0].key};
    } else {
      assert Overlay.Replace([], [f]) == [];
      assert KeysOf([]) == {};
    }
  }

  /** The first error of a path in an empty map is a one-message list. */
  lemma AddErrorToEmpty(path: string, message: string)
    ensures AddError(map[], path, message) == map[path := [message]]
  {
    var r := AddError(map[], path, message);
    assert MessagesAt(map[], path) == [];
    assert r.Keys == {path};
    assert r[path] == [message];
  }

  /** Merging into an empty map yields the other map unchanged. */
  lemma MergeIntoEmpty(b: ErrorMap)
    ensures Merge(map[], b) == b
  {
    forall p | p in b
      ensures Merge(map[], b)[p] == b[p]
    {
      assert MessagesAt(map[], p) == [];
    }
  }
}
