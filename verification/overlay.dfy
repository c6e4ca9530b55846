/**
 * Schema composition: the effective field list once a branch is selected. The
 * branch's fields replace same-named fields of the remaining list in place, and
 * branch-only fields follow, in the branch's order.
 */
module Overlay {
  import opened Wrappers
  import opened Values
  import opened Schemas

  /** The first field of the list declared under `k`. */
  function Find(fields: seq<Field>, k: Key): (r: Option<Field>)
    ensures r.Some? <==> k in KeysOf(fields)
    ensures r.Some? ==> r.value.key == k && r.value in fields
    decreases |fields|
  {
    if fields == [] then None
    else if fields[0].key == k then Some(fields[0])
    else Find(fields[1..], k)
  }

  /** Each remaining field, or the branch's definition of the same identifier. */
  function Replace(rest: seq<Field>, branch: seq<Field>): (r: seq<Field>)
    ensures |r| == |rest|
    ensures forall i :: 0 <= i < |rest| ==> r[i].key == rest[i].key
    ensures forall i :: 0 <= i < |rest| ==> r[i] == rest[i] || r[i] in branch
    decreases |rest|
  {
    if rest == [] then []
    else
      var head := match Find(branch, rest[0].key)
        case Some(g) => g
        case None => rest[0];
      [head] + Replace(rest[1..], branch)
  }

  /** The branch's fields whose identifiers are not yet taken, first definition of each. */
  function Extra(branch: seq<Field>, taken: set<Key>): (r: seq<Field>)
    ensures KeysOf(r) == KeysOf(branch) - taken
    ensures forall g :: g in r ==> g in branch
    decreases |branch|
  {
    if branch == [] then []
    else if branch[0].key in taken then Extra(branch[1..], taken)
    else
      var r := [branch[0]] + Extra(branch[1..], taken + {branch[0].key});
      assert r[1..] == Extra(branch[1..], taken + {branch[0].key});
      r
  }

  /**
   * The effective field list after selecting a branch with fields `branch`: it
   * declares the identifiers of both lists, and every field in it is taken from
   * one of them.
   */
  function Apply(rest: seq<Field>, branch: seq<Field>): (r: seq<Field>)
    ensures KeysOf(r) == KeysOf(rest) + KeysOf(branch)
    ensures forall g :: g in r ==> g in rest || g in branch
  {
    var replaced := Replace(rest, branch);
    var extra := Extra(branch, KeysOf(rest));
    KeysOfConcat(replaced, extra);
    KeysOfReplace(rest, branch);
    assert forall g :: g in replaced ==> g in rest || g in branch by {
      forall g | g in replaced
        ensures g in rest || g in branch
      {
        var i :| 0 <= i < |replaced| && replaced[i] == g;
      }
    }
    replaced + extra
  }

  lemma {:induction false} KeysOfConcat(a: seq<Field>, b: seq<Field>)
    ensures KeysOf(a + b) == KeysOf(a) + KeysOf(b)
    decreases |a|
  {
    if a == [] {
      assert a + b == b;
    } else {
      assert (a + b)[1..] == a[1..] + b;
      KeysOfConcat(a[1..], b);
    }
  }

  lemma {:induction false} FindConcat(a: seq<Field>, b: seq<Field>, k: Key)
    ensures Find(a + b, k) == if k in KeysOf(a) then Find(a, k) else Find(b, k)
    decreases |a|
  {
    if a == [] {
      assert a + b == b;
    } else {
      assert (a + b)[1..] == a[1..] + b;
      FindConcat(a[1..], b, k);
    }
  }

  lemma {:induction false} KeysOfReplace(rest: seq<Field>, branch: seq<Field>)
    ensures KeysOf(Replace(rest, branch)) == KeysOf(rest)
    decreases |rest|
  {
    if rest != [] {
      KeysOfReplace(rest[1..], branch);
      assert Replace(rest, branch)[1..] == Replace(rest[1..], branch);
    }
  }

  /** Inside the remaining list, an identifier the branch declares takes the branch's definition. */
  lemma {:induction false} FindReplace(rest: seq<Field>, branch: seq<Field>, k: Key)
    requires k in KeysOf(rest)
    ensures Find(Replace(rest, branch), k) == if k in KeysOf(branch) then Find(branch, k) else Find(rest, k)
    decreases |rest|
  {
    var r := Replace(rest, branch);
    assert r[1..] == Replace(rest[1..], branch);
    if rest[0].key != k {
      FindReplace(rest[1..], branch, k);
    }
  }

  /** A branch-only identifier is found in the appended part with the branch's definition. */
  lemma {:induction false} FindExtra(branch: seq<Field>, taken: set<Key>, k: Key)
    requires k !in taken
    ensures Find(Extra(branch, taken), k) == Find(branch, k)
    decreases |branch|
  {
    if branch != [] {
      if branch[0].key in taken {
        FindExtra(branch[1..], taken, k);
      } else if branch[0].key != k {
        var r := Extra(branch, taken);
        assert r[1..] == Extra(branch[1..], taken + {branch[0].key});
        FindExtra(branch[1..], taken + {branch[0].key}, k);
      }
    }
  }

  /** Replaced fields keep the position of the field they replace; branch-only fields come after. */
  lemma ApplyPositions(rest: seq<Field>, branch: seq<Field>)
    ensures |Apply(rest, branch)| >= |rest|
    ensures forall i :: 0 <= i < |rest| ==> Apply(rest, branch)[i].key == rest[i].key
    ensures forall i :: |rest| <= i < |Apply(rest, branch)| ==> Apply(rest, branch)[i].key !in KeysOf(rest)
  {
    var e := Extra(branch, KeysOf(rest));
    var a := Apply(rest, branch);
    forall i | |rest| <= i < |a|
      ensures a[i].key !in KeysOf(rest)
    {
      assert a[i] == e[i - |rest|];
      assert a[i].key in KeysOf(e);
    }
  }

  /**
   * Override precedence: the branch's definition of an identifier wins over the
   * remaining list's; every other identifier keeps its remaining definition.
   */
  lemma ApplyPrecedence(rest: seq<Field>, branch: seq<Field>, k: Key)
    ensures Find(Apply(rest, branch), k) == if k in KeysOf(branch) then Find(branch, k) else Find(rest, k)
  {
    var r := Replace(rest, branch);
    var e := Extra(branch, KeysOf(rest));
    FindConcat(r, e, k);
    KeysOfReplace(rest, branch);
    if k in KeysOf(rest) {
      FindReplace(rest, branch, k);
    } else {
      FindExtra(branch, KeysOf(rest), k);
    }
  }
}
