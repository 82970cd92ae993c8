/** `merge` (crates/smallauncher_lib/src/launch.rs:16-34): the deep merge used to apply a
    version's JSON on top of the version it inherits from. */
module JsonMerge {
  import opened Wrappers
  import opened Json

  /** Objects merge key by key, recursively where both sides have the key; arrays are
      concatenated, `a`'s items first; in every other case `b` wins. */
  function Merge(a: Json, b: Json): (r: Json)
    ensures a.Object? && b.Object? ==> r.Object? && r.members.Keys == a.members.Keys + b.members.Keys
    ensures a.Object? && b.Object? ==>
              forall k :: k in b.members && k in a.members ==> r.members[k] == Merge(a.members[k], b.members[k])
    ensures a.Object? && b.Object? ==> forall k :: k in b.members && k !in a.members ==> r.members[k] == b.members[k]
    ensures a.Object? && b.Object? ==> forall k :: k in a.members && k !in b.members ==> r.members[k] == a.members[k]
    ensures a.Array? && b.Array? ==> r == Array(a.items + b.items)
    ensures !(a.Object? && b.Object?) && !(a.Array? && b.Array?) ==> r == b
    decreases b
  {
    match (a, b)
    case (Object(ma), Object(mb)) =>
      Object(map k | k in ma.Keys + mb.Keys ::
        if k in mb then (if k in ma then Merge(ma[k], mb[k]) else mb[k]) else ma[k])
    case (Array(xa), Array(xb)) => Array(xa + xb)
    case _ => b
  }

  /** A scalar that `b` holds at some path survives the merge there: the inheriting
      version's own settings win. */
  lemma {:induction false} MergeScalarWins(a: Json, b: Json, path: seq<string>, v: Json)
    requires Lookup(b, path) == Some(v) && IsScalar(v)
    ensures Lookup(Merge(a, b), path) == Some(v)
    decreases |path|
  {
    if path != [] {
      var k := path[0];
      if a.Object? && k in a.members {
        MergeScalarWins(a.members[k], b.members[k], path[1..], v);
      } else if a.Object? {
        assert Merge(a, b).members[k] == b.members[k];
      }
    }
  }

  /** Where both sides hold arrays at the same path, the result holds their concatenation,
      `a`'s items first: the libraries and arguments of the parent come before the child's. */
  lemma {:induction false} MergeArraysConcatenate(a: Json, b: Json, path: seq<string>, xs: seq<Json>, ys: seq<Json>)
    requires Lookup(a, path) == Some(Array(xs)) && Lookup(b, path) == Some(Array(ys))
    ensures Lookup(Merge(a, b), path) == Some(Array(xs + ys))
    decreases |path|
  {
    if path != [] {
      var k := path[0];
      MergeArraysConcatenate(a.members[k], b.members[k], path[1..], xs, ys);
    }
  }

  /** What `b` does not reach is kept from `a`: below a path where both sides are objects
      and `b` lacks the next key, the result is `a`'s value. */
  lemma {:induction false} MergeKeepsAbsent(a: Json, b: Json, path: seq<string>, k: string, v: Json)
    requires Lookup(a, path + [k]) == Some(v)
    requires Lookup(b, path).Some? && Lookup(b, path).value.Object? && k !in Lookup(b, path).value.members
    ensures Lookup(Merge(a, b), path + [k]) == Some(v)
    decreases |path|
  {
    if path == [] {
      assert Lookup(a, [k]) == Lookup(a.members[k], []);
      assert Lookup(Merge(a, b), [k]) == Lookup(Merge(a, b).members[k], []);
    } else {
      var h := path[0];
      assert (path + [k])[0] == h && (path + [k])[1..] == path[1..] + [k];
      MergeKeepsAbsent(a.members[h], b.members[h], path[1..], k, v);
    }
  }

  /** Merging with an empty object changes nothing, on either side. */
  lemma MergeEmptyObject(m: map<string, Json>)
    ensures Merge(Object(m), Object(map[])) == Object(m)
    ensures Merge(Object(map[]), Object(m)) == Object(m)
  {
  }
}
