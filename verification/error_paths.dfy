/** Path-keyed error maps: dotted paths rooted at `$`, each holding a non-empty message list. */
module ErrorPaths {
  import opened Values

  /** Error messages by dotted path, e.g. `"$.a_hash.another_event" => ["is required"]`. */
  type ErrorMap = map<string, seq<string>>

  const Root: string := "$"

  /** The path of field `key` at the level whose path is `path`. */
  function Child(path: string, key: Key): string
  {
    path + "." + key
  }

  /** The messages recorded under `path`, empty when there are none. */
  function MessagesAt(errors: ErrorMap, path: string): seq<string>
  {
    if path in errors then errors[path] else []
  }

  /** Appends one message under `path`, leaving every other path alone. */
  function AddError(errors: ErrorMap, path: string, message: string): (r: ErrorMap)
    ensures r.Keys == errors.Keys + {path}
    ensures r[path] == MessagesAt(errors, path) + [message]
    ensures forall p :: p in errors && p != path ==> r[p] == errors[p]
  {
    errors[path := MessagesAt(errors, path) + [message]]
  }

  /** Joins two error maps; where both hold a path, the first map's messages come first. */
  function Merge(a: ErrorMap, b: ErrorMap): (r: ErrorMap)
    ensures r.Keys == a.Keys + b.Keys
    ensures forall p :: p in r ==> r[p] == MessagesAt(a, p) + MessagesAt(b, p)
  {
    map p | p in a.Keys + b.Keys :: MessagesAt(a, p) + MessagesAt(b, p)
  }

  /** `k` is `path` followed by one or more `.identifier` segments. */
  predicate Under(path: string, k: string) {
    |path| + 1 <= |k| && k[..|path| + 1] == path + "."
  }

  /** Every path of the map lies under `path`, and no path holds an empty message list. */
  predicate WellFormed(errors: ErrorMap, path: string) {
    forall k :: k in errors ==> Under(path, k) && errors[k] != []
  }

  lemma ChildIsUnder(path: string, key: Key)
    ensures Under(path, Child(path, key))
  {
    assert Child(path, key)[..|path| + 1] == path + ".";
  }

  /** A path under a child's path is under the parent's path. */
  lemma UnderChild(path: string, key: Key, k: string)
    requires Under(Child(path, key), k)
    ensures Under(path, k)
  {
    var c := Child(path, key);
    assert k[..|path| + 1] == k[..|c| + 1][..|path| + 1];
    assert (c + ".")[..|path| + 1] == path + ".";
  }

  lemma AddErrorWellFormed(errors: ErrorMap, path: string, k: string, message: string)
    requires WellFormed(errors, path) && Under(path, k)
    ensures WellFormed(AddError(errors, k, message), path)
  {
  }

  lemma MergeWellFormed(a: ErrorMap, b: ErrorMap, path: string)
    requires WellFormed(a, path) && WellFormed(b, path)
    ensures WellFormed(Merge(a, b), path)
  {
  }

  /** Errors recorded under a child's path are well formed under the parent's path. */
  lemma WidenWellFormed(errors: ErrorMap, path: string, key: Key)
    requires WellFormed(errors, Child(path, key))
    ensures WellFormed(errors, path)
  {
    forall k | k in errors
      ensures Under(path, k)
    {
      UnderChild(path, key, k);
    }
  }
}
