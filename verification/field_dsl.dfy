/**
 * The chainable field declarations: each call adds policies to a field through the
 * host's `policy` operation or patches its metadata through the host's `meta`
 * operation, and hands back the updated field for further chaining.
 */
module FieldDsl {
  import opened Wrappers
  import opened Values
  import Policies
  import opened Schemas

  /** `field(key)`: a fresh field without policies, metadata, mutation or inline schema. */
  function NewField(key: Key): (f: Field)
    ensures f.key == key && f.policies == [] && f.meta == map[]
    ensures f.mutation.None? && f.nested.None?
  {
    Field(key, [], map[], None, None)
  }

  /** No recorded flag is `false`: absent policies are omitted, never stored as false. */
  predicate NoFalseFlags(meta: map<string, Value>) {
    forall k :: k in meta ==> meta[k] != Bool(false)
  }

  /** The metadata keys that policies (rather than explicit `meta` calls) record. */
  const PolicyFlagNames: set<string> := {"required", "present", "whitelisted", "options", "type"}

  /** The flag names recorded by a list of policies. */
  function PolicyFlags(ps: seq<Policies.Policy>): (names: set<string>)
    ensures names <= PolicyFlagNames
    decreases |ps|
  {
    if ps == [] then {}
    else PolicyFlags(ps[..|ps| - 1]) + Policies.PolicyMeta(ps[|ps| - 1]).Keys
  }

  /** Which policy-derived flags a field carries agrees with which policies it holds. */
  predicate FlagsMatchPolicies(f: Field) {
    f.meta.Keys * PolicyFlagNames == PolicyFlags(f.policies)
  }

  /** Appending a policy adds exactly the flags it records. */
  lemma PolicyFlagsAppend(ps: seq<Policies.Policy>, p: Policies.Policy)
    ensures PolicyFlags(ps + [p]) == PolicyFlags(ps) + Policies.PolicyMeta(p).Keys
  {
    assert (ps + [p])[..|ps|] == ps;
  }

  /**
   * The host's `policy`: appends the policy and records the metadata it carries,
   * keeping the field's flags in step with its policies.
   */
  function WithPolicy(f: Field, p: Policies.Policy): (r: Field)
    ensures r.policies == f.policies + [p]
    ensures r.meta.Keys == f.meta.Keys + Policies.PolicyMeta(p).Keys
    ensures forall k :: k in Policies.PolicyMeta(p) ==> r.meta[k] == Policies.PolicyMeta(p)[k]
    ensures forall k :: k in f.meta && k !in Policies.PolicyMeta(p) ==> r.meta[k] == f.meta[k]
    ensures r.key == f.key && r.mutation == f.mutation && r.nested == f.nested
    ensures FlagsMatchPolicies(f) ==> FlagsMatchPolicies(r)
  {
    PolicyFlagsAppend(f.policies, p);
    assert Policies.PolicyMeta(p).Keys <= PolicyFlagNames;
    f.(policies := f.policies + [p], meta := f.meta + Policies.PolicyMeta(p))
  }

  /**
   * The host's `meta`: merges a metadata patch, later entries winning. A patch that
   * sets no policy-derived flag keeps the flags/policies correspondence either way.
   */
  function WithMeta(f: Field, patch: map<string, Value>): (r: Field)
    ensures r.meta.Keys == f.meta.Keys + patch.Keys
    ensures forall k :: k in patch ==> r.meta[k] == patch[k]
    ensures forall k :: k in f.meta && k !in patch ==> r.meta[k] == f.meta[k]
    ensures r.key == f.key && r.policies == f.policies && r.mutation == f.mutation && r.nested == f.nested
    ensures patch.Keys !! PolicyFlagNames ==> (FlagsMatchPolicies(f) <==> FlagsMatchPolicies(r))
  {
    var r := f.(meta := f.meta + patch);
    assert patch.Keys !! PolicyFlagNames ==> r.meta.Keys * PolicyFlagNames == f.meta.Keys * PolicyFlagNames;
    r
  }

  function Required(f: Field): (r: Field)
    ensures r.policies == f.policies + [Policies.Required]
    ensures r.meta == f.meta["required" := Bool(true)]
    ensures r.key == f.key && r.mutation == f.mutation && r.nested == f.nested
    ensures NoFalseFlags(f.meta) ==> NoFalseFlags(r.meta)
    ensures FlagsMatchPolicies(f) ==> FlagsMatchPolicies(r)
  {
    WithPolicy(f, Policies.Required)
  }

  function Present(f: Field): (r: Field)
    ensures r.policies == f.policies + [Policies.Required, Policies.Present]
    ensures r.meta == f.meta["required" := Bool(true)]["present" := Bool(true)]
    ensures r.key == f.key && r.mutation == f.mutation && r.nested == f.nested
    ensures NoFalseFlags(f.meta) ==> NoFalseFlags(r.meta)
    ensures FlagsMatchPolicies(f) ==> FlagsMatchPolicies(r)
  {
    var req := Required(f);
    var r := WithPolicy(req, Policies.Present);
    assert r.policies[|f.policies|] == Policies.Required;
    assert r.policies[|f.policies| + 1] == Policies.Present;
    r
  }

  function Declared(f: Field): (r: Field)
    ensures r.policies == f.policies + [Policies.Declared]
    ensures r.meta == f.meta
    ensures r.key == f.key && r.mutation == f.mutation && r.nested == f.nested
    ensures FlagsMatchPolicies(f) ==> FlagsMatchPolicies(r)
  {
    WithPolicy(f, Policies.Declared)
  }

  function Options(f: Field, opts: seq<Value>): (r: Field)
    ensures r.policies == f.policies + [Policies.Options(opts)]
    ensures r.meta == f.meta["options" := List(opts)]
    ensures r.key == f.key && r.mutation == f.mutation && r.nested == f.nested
    ensures FlagsMatchPolicies(f) ==> FlagsMatchPolicies(r)
  {
    WithPolicy(f, Policies.Options(opts))
  }

  function Whitelisted(f: Field): (r: Field)
    ensures r.policies == f.policies + [Policies.Whitelisted]
    ensures r.meta == f.meta["whitelisted" := Bool(true)]
    ensures r.key == f.key && r.mutation == f.mutation && r.nested == f.nested
    ensures NoFalseFlags(f.meta) ==> NoFalseFlags(r.meta)
    ensures FlagsMatchPolicies(f) ==> FlagsMatchPolicies(r)
    ensures ("required" in r.meta <==> "required" in f.meta) && ("present" in r.meta <==> "present" in f.meta)
  {
    WithPolicy(f, Policies.Whitelisted)
  }

  function Transparent(f: Field): (r: Field)
    ensures r.policies == f.policies
    ensures r.meta == f.meta["transparent" := Bool(true)]
    ensures IsTransparent(r)
    ensures r.key == f.key && r.mutation == f.mutation && r.nested == f.nested
    ensures NoFalseFlags(f.meta) ==> NoFalseFlags(r.meta)
    ensures FlagsMatchPolicies(f) <==> FlagsMatchPolicies(r)
  {
    var patch := map["transparent" := Bool(true)];
    assert patch.Keys == {"transparent"} && "transparent" !in PolicyFlagNames;
    WithMeta(f, patch)
  }

  /** `type(kind)`: a coercion policy, recorded as `type: kind` in the metadata. */
  function OfType(f: Field, kind: Policies.Kind): (r: Field)
    ensures r.policies == f.policies + [Policies.Type(kind)]
    ensures r.meta == f.meta["type" := Sym(kind.Name())]
    ensures r.key == f.key && r.mutation == f.mutation && r.nested == f.nested
    ensures FlagsMatchPolicies(f) ==> FlagsMatchPolicies(r)
  {
    WithPolicy(f, Policies.Type(kind))
  }

  /** `mutates_schema!`: installs the selector and flags the field `mutates_schema`. */
  function MutatesSchema(f: Field, select: Selector): (r: Field)
    ensures r.policies == f.policies && r.mutation == Some(select)
    ensures r.meta == f.meta["mutates_schema" := Bool(true)]
    ensures r.key == f.key && r.nested == f.nested
    ensures FlagsMatchPolicies(f) <==> FlagsMatchPolicies(r)
  {
    var patch := map["mutates_schema" := Bool(true)];
    assert patch.Keys == {"mutates_schema"} && "mutates_schema" !in PolicyFlagNames;
    WithMeta(f, patch).(mutation := Some(select))
  }

  /** `.schema { ... }`: attaches the inline schema of an object-typed field. */
  function WithSchema(f: Field, s: Schema): (r: Field)
    ensures r.nested == Some(s)
    ensures r.key == f.key && r.policies == f.policies && r.meta == f.meta && r.mutation == f.mutation
  {
    f.(nested := Some(s))
  }

  /** The flag set `.present` yields on a fresh field: exactly `{required: true, present: true}`. */
  lemma PresentFlags(key: Key)
    ensures Present(NewField(key)).meta == map["required" := Bool(true), "present" := Bool(true)]
    ensures Present(NewField(key)).policies == [Policies.Required, Policies.Present]
  {
  }

  /** `declared` adds no `required` flag to a field that had none. */
  lemma DeclaredAddsNoRequired(f: Field)
    requires FlagsMatchPolicies(f) && "required" !in f.meta
    ensures "required" !in Declared(f).meta
    ensures Policies.Required !in Declared(f).policies
  {
    RequiredFlag(Declared(f).policies);
  }

  /** A policy list records the `required` flag exactly when it holds the `required` policy. */
  lemma {:induction false} RequiredFlag(ps: seq<Policies.Policy>)
    ensures "required" in PolicyFlags(ps) <==> Policies.Required in ps
    decreases |ps|
  {
    if ps != [] {
      var init := ps[..|ps| - 1];
      RequiredFlag(init);
      assert ps == init + [ps[|ps| - 1]];
      assert Policies.Required in ps <==> Policies.Required in init || ps[|ps| - 1] == Policies.Required;
    }
  }

  /** Setting a key the patch does not mention commutes with merging the patch. */
  lemma UpdateCommutesWithMerge<K, V>(m: map<K, V>, patch: map<K, V>, k: K, v: V)
    requires k !in patch
    ensures (m + patch)[k := v] == m[k := v] + patch
  {
    var a := (m + patch)[k := v];
    var b := m[k := v] + patch;
    assert a.Keys == b.Keys;
    assert forall x :: x in a ==> a[x] == b[x];
  }

  /** `transparent` only touches metadata, so it commutes with any policy declaration. */
  lemma TransparentCommutes(f: Field, p: Policies.Policy)
    ensures Transparent(WithPolicy(f, p)).policies == WithPolicy(Transparent(f), p).policies
    ensures Transparent(WithPolicy(f, p)).meta == WithPolicy(Transparent(f), p).meta
  {
    var pm := Policies.PolicyMeta(p);
    assert "transparent" !in pm;
    UpdateCommutesWithMerge(f.meta, pm, "transparent", Bool(true));
  }

  /** A field built from `field(key)` by DSL calls keeps its flags in step with its policies. */
  lemma FreshFieldFlagsMatch(key: Key)
    ensures FlagsMatchPolicies(NewField(key))
    ensures NoFalseFlags(NewField(key).meta)
  {
  }
}
