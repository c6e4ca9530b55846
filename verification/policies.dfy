/** Policies: the per-field checking and transforming units, and the pipeline that runs them. */
module Policies {
  import opened Wrappers
  import opened Values

  /** A primitive kind named by `type(kind)`. */
  datatype Kind = StringKind | BooleanKind | ObjectKind | OtherKind(name: string) {

    /** The symbol a kind is declared with, as it appears in a field's metadata. */
    function Name(): string {
      match this
      case StringKind => "string"
      case BooleanKind => "boolean"
      case ObjectKind => "object"
      case OtherKind(n) => n
    }
  }

  /** The outcome of coercing one value to a kind. */
  datatype Coercion = Coerced(value: Value) | Mismatch(message: string)

  /** The primitive-type coercion registry, supplied from outside the engine. */
  type Coercer = (Kind, Value) -> Coercion

  /**
   * The cases of the registry the resolver's behaviour depends on here: a symbol
   * becomes its string under `type(:string)`, and booleans and hashes pass through
   * `type(:boolean)` and `type(:object)` unchanged.
   */
  ghost predicate StandardCoercions(coerce: Coercer) {
    && (forall s :: coerce(StringKind, Sym(s)) == Coerced(Str(s)))
    && (forall b :: coerce(BooleanKind, Bool(b)) == Coerced(Bool(b)))
    && (forall m :: coerce(ObjectKind, Hash(m)) == Coerced(Hash(m)))
  }

  datatype Policy =
    | Required
    | Present
    | Declared
    | Options(allowed: seq<Value>)
    | Whitelisted
    | Type(kind: Kind)

  const RequiredMessage: string := "is required"
  const OptionsMessage: string := "is not an allowed option"

  /** The metadata a policy contributes to its field when it is applied. */
  function PolicyMeta(p: Policy): (m: map<string, Value>)
    ensures |m| == (if p.Declared? then 0 else 1)
  {
    match p
    case Required => map["required" := Bool(true)]
    case Present => map["present" := Bool(true)]
    case Declared => map[]
    case Options(allowed) => map["options" := List(allowed)]
    case Whitelisted => map["whitelisted" := Bool(true)]
    case Type(kind) => map["type" := Sym(kind.Name())]
  }

  /** Whether a policy takes part at all; an ineligible policy ends the pipeline and drops the field. */
  predicate Eligible(p: Policy, key: Key, payload: Record) {
    p.Declared? ==> key in payload
  }

  /** One policy applied to the running value: the new value, or the message of its failure. */
  datatype Step = Pass(value: Value) | Fail(value: Value, message: string)

  function ApplyPolicy(p: Policy, value: Value, key: Key, payload: Record, coerce: Coercer): (s: Step)
    ensures p.Required? ==> (s.Fail? <==> key !in payload)
    ensures p.Present? ==> (s.Fail? <==> Blank(value))
    ensures p.Options? ==> (s.Fail? <==> value != Nil && value !in p.allowed)
    ensures p.Declared? || p.Whitelisted? ==> s == Pass(value)
    ensures !p.Type? ==> s.value == value
  {
    match p
    case Required => if key in payload then Pass(value) else Fail(value, RequiredMessage)
    case Present => if Blank(value) then Fail(value, RequiredMessage) else Pass(value)
    case Declared => Pass(value)
    case Options(allowed) =>
      if value == Nil || value in allowed then Pass(value) else Fail(value, OptionsMessage)
    case Whitelisted => Pass(value)
    case Type(kind) =>
      match coerce(kind, value)
      case Coerced(v) => Pass(v)
      case Mismatch(msg) => Fail(value, msg)
  }

  /** What the pipeline yields for one field: whether it is kept, its value, and its error. */
  datatype Outcome = Outcome(eligible: bool, value: Value, error: Option<string>)

  /**
   * Runs `policies` in order from the running state. A field starts eligible exactly
   * when its key is in the payload; the first failing policy records its message,
   * makes the field eligible and ends the pipeline; an ineligible policy ends it too.
   */
  function RunFrom(policies: seq<Policy>, key: Key, payload: Record, coerce: Coercer,
                   eligible: bool, value: Value): (o: Outcome)
    ensures o.error.Some? ==> o.eligible
    ensures o.eligible && !eligible ==> o.error.Some?
    ensures o.error.None? && o.eligible ==> forall i :: 0 <= i < |policies| ==> Eligible(policies[i], key, payload)
    decreases |policies|
  {
    if policies == [] then Outcome(eligible, value, None)
    else
      var p := policies[0];
      if !Eligible(p, key, payload) then Outcome(false, value, None)
      else match ApplyPolicy(p, value, key, payload, coerce)
        case Fail(v, msg) => Outcome(true, v, Some(msg))
        case Pass(v) => RunFrom(policies[1..], key, payload, coerce, eligible, v)
  }

  /** The policy pipeline of a field with identifier `key`, run on `payload[key]`. */
  function Run(policies: seq<Policy>, key: Key, payload: Record, coerce: Coercer): (o: Outcome)
    ensures o.eligible ==> key in payload || o.error.Some?
  {
    RunFrom(policies, key, payload, coerce, key in payload, Fetch(payload, key))
  }

  /** Every policy of `pre` takes part and passes a missing key's nil unchanged. */
  predicate PassesNil(pre: seq<Policy>, key: Key, payload: Record, coerce: Coercer) {
    forall i :: 0 <= i < |pre| ==> Eligible(pre[i], key, payload) && ApplyPolicy(pre[i], Nil, key, payload, coerce) == Pass(Nil)
  }

  lemma {:induction false} RunFromRequiredMissing(pre: seq<Policy>, post: seq<Policy>, key: Key, payload: Record,
                                                  coerce: Coercer, eligible: bool)
    requires key !in payload && PassesNil(pre, key, payload, coerce)
    ensures RunFrom(pre + [Required] + post, key, payload, coerce, eligible, Nil) == Outcome(true, Nil, Some(RequiredMessage))
    decreases |pre|
  {
    var ps := pre + [Required] + post;
    if pre == [] {
      assert ps[0] == Required;
    } else {
      assert ps[0] == pre[0];
      assert ps[1..] == pre[1..] + [Required] + post;
      RunFromRequiredMissing(pre[1..], post, key, payload, coerce, eligible);
    }
  }

  /**
   * A missing key reaching `required` is kept as nil with "is required": the policies
   * before it (`pre`) all pass nil, and the ones after it never run.
   */
  lemma RequiredMissing(pre: seq<Policy>, post: seq<Policy>, key: Key, payload: Record, coerce: Coercer)
    requires key !in payload && PassesNil(pre, key, payload, coerce)
    ensures Run(pre + [Required] + post, key, payload, coerce) == Outcome(true, Nil, Some(RequiredMessage))
  {
    RunFromRequiredMissing(pre, post, key, payload, coerce, false);
  }

  /** The common case of `RequiredMissing`: `required` comes first, as `field(key).required` and `.present` build it. */
  lemma RequiredFirstMissing(policies: seq<Policy>, key: Key, payload: Record, coerce: Coercer)
    requires |policies| > 0 && policies[0] == Required
    requires key !in payload
    ensures Run(policies, key, payload, coerce) == Outcome(true, Nil, Some(RequiredMessage))
  {
  }

  /** Which policies let a missing key through to a later `required`: all but `declared` and `present`. */
  lemma PassesNilPolicies(p: Policy, key: Key, payload: Record, coerce: Coercer)
    requires key !in payload && !p.Required?
    ensures PassesNil([p], key, payload, coerce) <==> match p
      case Options(_) => true
      case Whitelisted => true
      case Type(kind) => coerce(kind, Nil) == Coerced(Nil)
      case _ => false
  {
    assert [p][0] == p;
    if p.Present? {
      assert Blank(Nil);
    }
  }

  /** `required` passes whenever the key exists, whatever its value (even nil). */
  lemma RequiredOnlyChecksKey(policies: seq<Policy>, key: Key, payload: Record, coerce: Coercer)
    requires key in payload
    ensures Run([Required] + policies, key, payload, coerce) == Run(policies, key, payload, coerce)
  {
    assert ([Required] + policies)[1..] == policies;
  }

  lemma {:induction false} RunFromDeclaredMissing(pre: seq<Policy>, post: seq<Policy>, key: Key, payload: Record,
                                                  coerce: Coercer, eligible: bool)
    requires key !in payload && PassesNil(pre, key, payload, coerce)
    ensures RunFrom(pre + [Declared] + post, key, payload, coerce, eligible, Nil) == Outcome(false, Nil, None)
    decreases |pre|
  {
    var ps := pre + [Declared] + post;
    if pre == [] {
      assert ps[0] == Declared;
    } else {
      assert ps[0] == pre[0];
      assert ps[1..] == pre[1..] + [Declared] + post;
      RunFromDeclaredMissing(pre[1..], post, key, payload, coerce, eligible);
    }
  }

  /**
   * A missing key reaching `declared` drops the field without an error: the policies
   * before it (`pre`) all pass nil, and the ones after it never run.
   */
  lemma DeclaredMissing(pre: seq<Policy>, post: seq<Policy>, key: Key, payload: Record, coerce: Coercer)
    requires key !in payload && PassesNil(pre, key, payload, coerce)
    ensures Run(pre + [Declared] + post, key, payload, coerce) == Outcome(false, Nil, None)
  {
    RunFromDeclaredMissing(pre, post, key, payload, coerce, false);
  }

  /**
   * A missing key whose first policy fails on nil is kept with that failure: a `type`
   * whose coercion rejects nil reports its message before a later `declared` or
   * `required` is reached.
   */
  lemma MissingFirstFails(p: Policy, post: seq<Policy>, key: Key, payload: Record, coerce: Coercer, msg: string)
    requires key !in payload && Eligible(p, key, payload)
    requires ApplyPolicy(p, Nil, key, payload, coerce) == Fail(Nil, msg)
    ensures Run([p] + post, key, payload, coerce) == Outcome(true, Nil, Some(msg))
  {
    assert ([p] + post)[0] == p;
  }

  /** Without any policy a field is kept exactly when its key exists, with its raw value and no error. */
  lemma NoPolicies(key: Key, payload: Record, coerce: Coercer)
    ensures Run([], key, payload, coerce) == Outcome(key in payload, Fetch(payload, key), None)
  {
  }

  /** `required` on an existing key keeps the raw value, whatever it is. */
  lemma RequiredPasses(key: Key, payload: Record, coerce: Coercer)
    requires key in payload
    ensures Run([Required], key, payload, coerce) == Outcome(true, payload[key], None)
  {
    assert [Required][1..] == [];
  }

  /** `.present` on a non-blank value keeps it without an error. */
  lemma PresentPasses(key: Key, payload: Record, coerce: Coercer)
    requires key in payload && !Blank(payload[key])
    ensures Run([Required, Present], key, payload, coerce) == Outcome(true, payload[key], None)
  {
    assert [Required, Present][1..] == [Present];
    assert [Present][1..] == [];
  }

  /** An eligible policy that passes hands its value on to the rest of the pipeline. */
  lemma RunFromPass(p: Policy, rest: seq<Policy>, key: Key, payload: Record, coerce: Coercer,
                    eligible: bool, value: Value, v: Value)
    requires Eligible(p, key, payload) && ApplyPolicy(p, value, key, payload, coerce) == Pass(v)
    ensures RunFrom([p] + rest, key, payload, coerce, eligible, value) == RunFrom(rest, key, payload, coerce, eligible, v)
  {
    assert ([p] + rest)[0] == p;
    assert ([p] + rest)[1..] == rest;
  }

  /** `.present.options(allowed)` on a non-blank allowed value keeps it without an error. */
  lemma PresentOptionPasses(allowed: seq<Value>, key: Key, payload: Record, coerce: Coercer)
    requires key in payload && !Blank(payload[key]) && payload[key] in allowed
    ensures Run([Required, Present, Options(allowed)], key, payload, coerce) == Outcome(true, payload[key], None)
  {
    var v := payload[key];
    assert [Required, Present, Options(allowed)] == [Required] + ([Present] + ([Options(allowed)] + []));
    RunFromPass(Required, [Present] + ([Options(allowed)] + []), key, payload, coerce, true, v, v);
    RunFromPass(Present, [Options(allowed)] + [], key, payload, coerce, true, v, v);
    RunFromPass(Options(allowed), [], key, payload, coerce, true, v, v);
  }

  /** `.present.type(kind)` on a non-blank value that coerces keeps the coerced value. */
  lemma PresentTypedPasses(kind: Kind, key: Key, payload: Record, coerce: Coercer, v: Value)
    requires key in payload && !Blank(payload[key]) && coerce(kind, payload[key]) == Coerced(v)
    ensures Run([Required, Present, Type(kind)], key, payload, coerce) == Outcome(true, v, None)
  {
    var raw := payload[key];
    assert [Required, Present, Type(kind)] == [Required] + ([Present] + ([Type(kind)] + []));
    RunFromPass(Required, [Present] + ([Type(kind)] + []), key, payload, coerce, true, raw, raw);
    RunFromPass(Present, [Type(kind)] + [], key, payload, coerce, true, raw, raw);
    RunFromPass(Type(kind), [], key, payload, coerce, true, raw, v);
  }

  /** `.type(kind).present` on a value that coerces to a non-blank one keeps the coerced value. */
  lemma TypedPresentPasses(kind: Kind, key: Key, payload: Record, coerce: Coercer, v: Value)
    requires key in payload && coerce(kind, payload[key]) == Coerced(v) && !Blank(v)
    ensures Run([Type(kind), Required, Present], key, payload, coerce) == Outcome(true, v, None)
  {
    var raw := payload[key];
    assert [Type(kind), Required, Present] == [Type(kind)] + ([Required] + ([Present] + []));
    RunFromPass(Type(kind), [Required] + ([Present] + []), key, payload, coerce, true, raw, v);
    RunFromPass(Required, [Present] + [], key, payload, coerce, true, v, v);
    RunFromPass(Present, [], key, payload, coerce, true, v, v);
  }

  /** `.declared.type(kind)` on an existing key whose value coerces keeps the coerced value. */
  lemma DeclaredTypedPasses(kind: Kind, key: Key, payload: Record, coerce: Coercer, v: Value)
    requires key in payload && coerce(kind, payload[key]) == Coerced(v)
    ensures Run([Declared, Type(kind)], key, payload, coerce) == Outcome(true, v, None)
  {
    var raw := payload[key];
    assert [Declared, Type(kind)] == [Declared] + ([Type(kind)] + []);
    RunFromPass(Declared, [Type(kind)] + [], key, payload, coerce, true, raw, raw);
    RunFromPass(Type(kind), [], key, payload, coerce, true, raw, v);
  }
}
