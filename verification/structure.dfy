/**
 * Structure introspection: a static, payload-independent description of a schema,
 * listing every declared branch recursively and each field's metadata flags.
 */
module Structure {
  import opened Wrappers
  import opened Values
  import opened Schemas

  /** A field's entry: its flag set, and the description of its inline schema if it has one. */
  datatype Entry = Entry(flags: map<string, Value>, structure: Option<Description>)

  /** `{_errors: [...], _subschemes: {...}, field => flags, ...}`. */
  datatype Description = Description(errors: seq<string>, subschemes: map<string, Description>, fields: map<Key, Entry>)

  /**
   * `schema.structure(ignore_transparent: ignoreTransparent)`: no `_errors`, one
   * `_subschemes` entry per declared branch, and one field entry per declared
   * identifier, transparent ones left out unless `ignoreTransparent` is false.
   */
  function Describe(s: Schema, ignoreTransparent: bool): (d: Description)
    ensures d.errors == [] && d.subschemes.Keys == s.subschemes.Keys
    ensures d.fields.Keys <= KeysOf(s.fields)
    ensures !ignoreTransparent ==> d.fields.Keys == KeysOf(s.fields)
    ensures ignoreTransparent ==> forall k :: k in d.fields ==> !TransparentFlags(d.fields[k].flags)
    decreases s, 1
  {
    Description(
      [],
      map n | n in s.subschemes :: Describe(s.subschemes[n], ignoreTransparent),
      DescribeFields(s, s.fields, ignoreTransparent))
  }

  /** The field entries of `fields`, a prefix of `s.fields`; a later declaration of an identifier wins. */
  function DescribeFields(s: Schema, fields: seq<Field>, ignoreTransparent: bool): (r: map<Key, Entry>)
    requires fields <= s.fields
    ensures r.Keys <= KeysOf(fields)
    ensures !ignoreTransparent ==> r.Keys == KeysOf(fields)
    ensures ignoreTransparent ==> forall k :: k in r ==> !TransparentFlags(r[k].flags)
    decreases s, 0, |fields|
  {
    if fields == [] then map[]
    else
      var init := DescribeFields(s, fields[..|fields| - 1], ignoreTransparent);
      var f := fields[|fields| - 1];
      assert f == s.fields[|fields| - 1];
      KeysOfSnoc(fields[..|fields| - 1], f);
      assert fields == fields[..|fields| - 1] + [f];
      if ignoreTransparent && IsTransparent(f) then init - {f.key}
      else init[f.key := Entry(f.meta, DescribeNested(s, f, ignoreTransparent))]
  }

  function DescribeNested(s: Schema, f: Field, ignoreTransparent: bool): Option<Description>
    requires f in s.fields
    decreases s, 0, 0
  {
    match f.nested
    case None => None
    case Some(n) => Some(Describe(n, ignoreTransparent))
  }

  /** The flag set of a transparent entry. */
  predicate TransparentFlags(flags: map<string, Value>) {
    "transparent" in flags && flags["transparent"] == Bool(true)
  }

  /**
   * `d` describes `s`'s branch tree: `_errors` is empty and `_subschemes` lists
   * exactly the declared branches, each described the same way, recursively.
   */
  ghost predicate MirrorsBranches(d: Description, s: Schema)
    decreases s
  {
    && d.errors == []
    && d.subschemes.Keys == s.subschemes.Keys
    && forall n :: n in s.subschemes ==> MirrorsBranches(d.subschemes[n], s.subschemes[n])
  }

  /** Every declared branch is listed, at every depth, whether or not any payload selects it. */
  lemma {:induction false} DescribeListsAllBranches(s: Schema, ignoreTransparent: bool)
    ensures MirrorsBranches(Describe(s, ignoreTransparent), s)
    decreases s
  {
    forall n | n in s.subschemes
      ensures MirrorsBranches(Describe(s, ignoreTransparent).subschemes[n], s.subschemes[n])
    {
      DescribeListsAllBranches(s.subschemes[n], ignoreTransparent);
    }
  }

  /**
   * `big` is `small` plus transparent entries: the same `_errors` and branches,
   * every entry of `small` present in `big` with the same flags, and every entry
   * only `big` has flagged transparent — at every level.
   */
  ghost predicate Covers(big: Description, small: Description)
    decreases small, 1
  {
    && big.errors == small.errors
    && big.subschemes.Keys == small.subschemes.Keys
    && (forall n :: n in small.subschemes ==> Covers(big.subschemes[n], small.subschemes[n]))
    && small.fields.Keys <= big.fields.Keys
    && (forall k :: k in small.fields ==> EntryCovers(big.fields[k], small.fields[k]))
    && (forall k :: k in big.fields && k !in small.fields ==> TransparentFlags(big.fields[k].flags))
  }

  ghost predicate EntryCovers(big: Entry, small: Entry)
    decreases small, 0
  {
    && big.flags == small.flags
    && (big.structure.Some? <==> small.structure.Some?)
    && (small.structure.Some? ==> Covers(big.structure.value, small.structure.value))
  }

  /** `structure(ignore_transparent: false)` is `structure` plus the transparent entries. */
  lemma {:induction false} DescribeCovers(s: Schema)
    ensures Covers(Describe(s, false), Describe(s, true))
    decreases s, 1
  {
    var big := Describe(s, false);
    var small := Describe(s, true);
    forall n | n in small.subschemes
      ensures Covers(big.subschemes[n], small.subschemes[n])
    {
      DescribeCovers(s.subschemes[n]);
    }
    FieldsCover(s, s.fields);
  }

  lemma {:induction false} FieldsCover(s: Schema, fields: seq<Field>)
    requires fields <= s.fields
    ensures var big := DescribeFields(s, fields, false);
            var small := DescribeFields(s, fields, true);
            && small.Keys <= big.Keys
            && (forall k :: k in small ==> EntryCovers(big[k], small[k]))
            && (forall k :: k in big && k !in small ==> TransparentFlags(big[k].flags))
    decreases s, 0, |fields|
  {
    if fields != [] {
      var init := fields[..|fields| - 1];
      FieldsCover(s, init);
      var f := fields[|fields| - 1];
      assert f == s.fields[|fields| - 1];
      if f.nested.Some? {
        DescribeCovers(f.nested.value);
      }
    }
  }

  lemma {:induction false} KeysOfSnoc(fields: seq<Field>, f: Field)
    ensures KeysOf(fields + [f]) == KeysOf(fields) + {f.key}
    decreases |fields|
  {
    if fields == [] {
      assert [f][1..] == [];
    } else {
      assert (fields + [f])[1..] == fields[1..] + [f];
      KeysOfSnoc(fields[1..], f);
    }
  }

  /** Each entry reports the metadata flags of the declaration of its identifier. */
  lemma {:induction false} EntriesAreDeclaredFlags(s: Schema, fields: seq<Field>, ignoreTransparent: bool, k: Key)
    requires fields <= s.fields
    requires k in DescribeFields(s, fields, ignoreTransparent)
    ensures exists i :: 0 <= i < |fields| && fields[i].key == k
              && DescribeFields(s, fields, ignoreTransparent)[k].flags == fields[i].meta
              && !(ignoreTransparent && IsTransparent(fields[i]))
    decreases |fields|
  {
    var init := fields[..|fields| - 1];
    var f := fields[|fields| - 1];
    if f.key != k {
      EntriesAreDeclaredFlags(s, init, ignoreTransparent, k);
      var i :| 0 <= i < |init| && init[i].key == k
               && DescribeFields(s, init, ignoreTransparent)[k].flags == init[i].meta
               && !(ignoreTransparent && IsTransparent(init[i]));
      assert fields[i] == init[i];
    } else {
      assert fields[|fields| - 1] == f;
    }
  }
}
