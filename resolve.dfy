/** Loading the metadata of an installed version (crates/smallauncher_lib/src/launch.rs:42-55):
    read `versions/<name>/<name>.json`; if it names a parent in `inheritsFrom`, read the parent's
    file too and merge the child over it; then decode. */
module Resolve {
  import opened Wrappers
  import opened Errors
  import opened Json
  import opened Paths
  import opened Store
  import opened Layout
  import opened JsonMerge
  import Meta

  /** `from_json_file` for an untyped value: a missing file is an `Io` error, bad JSON whatever
      the parser reports. */
  function ReadJson(d: Disk, p: Path, parseJson: Bytes -> Result<Json, Error>): (r: Result<Json, Error>)
    ensures p !in d.files ==> r == Err(Io)
    ensures p in d.files ==> r == parseJson(d.files[p])
  {
    if p in d.files then parseJson(d.files[p]) else Err(Io)
  }

  /** `from_json_file::<serde_json::Map<..>>`: the file must hold an object. */
  function ReadObject(d: Disk, p: Path, parseJson: Bytes -> Result<Json, Error>): (r: Result<map<string, Json>, Error>)
    ensures r.Ok? <==> ReadJson(d, p, parseJson).Ok? && ReadJson(d, p, parseJson).value.Object?
    ensures r.Ok? ==> ReadJson(d, p, parseJson) == Ok(Object(r.value))
    ensures ReadJson(d, p, parseJson).Err? ==> r == Err(ReadJson(d, p, parseJson).error)
  {
    var j :- ReadJson(d, p, parseJson);
    if j.Object? then Ok(j.members) else Err(Serialize)
  }

  /** The key naming the parent version. */
  const InheritsFrom := "inheritsFrom"

  /** The parent named by a version's object, if `inheritsFrom` holds a string. */
  function Parent(m: map<string, Json>): Option<string>
  {
    if InheritsFrom in m && m[InheritsFrom].Str? then Some(m[InheritsFrom].s) else None
  }

  /** The JSON value that is decoded: the child's object without `inheritsFrom`, merged over
      the parent's object when there is a parent. The parent's own `inheritsFrom` is not
      followed. */
  function MergedJson(d: Disk, parseJson: Bytes -> Result<Json, Error>, game: Path, name: string): (r: Result<Json, Error>)
    ensures r.Ok? ==> r.value.Object?
  {
    var child :- ReadObject(d, VersionJsonPath(game, name), parseJson);
    var rest := child - {InheritsFrom};
    match Parent(child)
    case None => Ok(Object(rest))
    case Some(parent) =>
      var base :- ReadObject(d, VersionJsonPath(game, parent), parseJson);
      Ok(Merge(Object(base), Object(rest)))
  }

  /** The metadata `launch_minecraft_version` works with. */
  function ResolveVersion(d: Disk, parseJson: Bytes -> Result<Json, Error>, game: Path, name: string): (r: Result<Meta.Version, Error>)
    ensures VersionJsonPath(game, name) !in d.files ==> r == Err(Io)
    ensures var j := ReadJson(d, VersionJsonPath(game, name), parseJson); j.Ok? && !j.value.Object? ==> r == Err(Serialize)
    ensures r.Ok? ==> ReadObject(d, VersionJsonPath(game, name), parseJson).Ok?
    ensures r.Ok? && Parent(ReadObject(d, VersionJsonPath(game, name), parseJson).value).Some? ==>
              ReadObject(d, VersionJsonPath(game, Parent(ReadObject(d, VersionJsonPath(game, name), parseJson).value).value), parseJson).Ok?
    ensures var child := ReadObject(d, VersionJsonPath(game, name), parseJson);
            child.Ok? && Parent(child.value).None? ==> r == Meta.DecodeVersion(Object(child.value - {InheritsFrom}))
  {
    var j :- MergedJson(d, parseJson, game, name);
    Meta.DecodeVersion(j)
  }

  /** A version whose file is missing cannot be launched. */
  lemma MissingVersionFile(d: Disk, parseJson: Bytes -> Result<Json, Error>, game: Path, name: string)
    requires VersionJsonPath(game, name) !in d.files
    ensures ResolveVersion(d, parseJson, game, name) == Err(Io)
  {
  }

  /** A setting the child gives as a scalar (its `mainClass`, its `id`, its `type`) overrides
      the parent's. */
  lemma ChildScalarWins(d: Disk, parseJson: Bytes -> Result<Json, Error>, game: Path, name: string,
                        child: map<string, Json>, path: seq<string>, v: Json)
    requires ReadObject(d, VersionJsonPath(game, name), parseJson) == Ok(child)
    requires MergedJson(d, parseJson, game, name).Ok?
    requires path != [] && path[0] != InheritsFrom
    requires Lookup(Object(child), path) == Some(v) && IsScalar(v)
    ensures Lookup(MergedJson(d, parseJson, game, name).value, path) == Some(v)
  {
    var rest := child - {InheritsFrom};
    assert Lookup(Object(rest), path) == Lookup(Object(child), path);
    match Parent(child)
    case None =>
    case Some(parent) =>
      var base := ReadObject(d, VersionJsonPath(game, parent), parseJson).value;
      MergeScalarWins(Object(base), Object(rest), path, v);
  }

  /** The libraries of an inheriting version are the parent's libraries followed by the
      child's. */
  lemma LibrariesConcatenate(d: Disk, parseJson: Bytes -> Result<Json, Error>, game: Path, name: string,
                             child: map<string, Json>, parent: string, base: map<string, Json>,
                             xs: seq<Json>, ys: seq<Json>)
    requires ReadObject(d, VersionJsonPath(game, name), parseJson) == Ok(child)
    requires Parent(child) == Some(parent)
    requires ReadObject(d, VersionJsonPath(game, parent), parseJson) == Ok(base)
    requires Lookup(Object(base), ["libraries"]) == Some(Array(xs))
    requires Lookup(Object(child), ["libraries"]) == Some(Array(ys))
    ensures Lookup(MergedJson(d, parseJson, game, name).value, ["libraries"]) == Some(Array(xs + ys))
  {
    var rest := child - {InheritsFrom};
    assert Lookup(Object(rest), ["libraries"]) == Lookup(Object(child), ["libraries"]);
    MergeArraysConcatenate(Object(base), Object(rest), ["libraries"], xs, ys);
  }

  /** Inheritance is one level deep: the file of the parent's parent is never read, so what it
      holds does not matter. */
  lemma OneLevelOfInheritance(d: Disk, parseJson: Bytes -> Result<Json, Error>, game: Path, name: string,
                              grandparent: string, content: Bytes)
    requires VersionJsonPath(game, grandparent) != VersionJsonPath(game, name)
    requires var child := ReadObject(d, VersionJsonPath(game, name), parseJson);
             child.Ok? && Parent(child.value).Some? ==>
               VersionJsonPath(game, grandparent) != VersionJsonPath(game, Parent(child.value).value)
    ensures var d' := d.(files := d.files[VersionJsonPath(game, grandparent) := content]);
            ResolveVersion(d', parseJson, game, name) == ResolveVersion(d, parseJson, game, name)
  {
    var d' := d.(files := d.files[VersionJsonPath(game, grandparent) := content]);
    assert ReadObject(d', VersionJsonPath(game, name), parseJson) == ReadObject(d, VersionJsonPath(game, name), parseJson);
    var child := ReadObject(d, VersionJsonPath(game, name), parseJson);
    if child.Ok? && Parent(child.value).Some? {
      var p := VersionJsonPath(game, Parent(child.value).value);
      assert ReadObject(d', p, parseJson) == ReadObject(d, p, parseJson);
    }
  }

  /** Decoded, the inheriting version's libraries are the parent's followed by its own. */
  lemma ResolvedLibraries(d: Disk, parseJson: Bytes -> Result<Json, Error>, game: Path, name: string,
                          child: map<string, Json>, parent: string, base: map<string, Json>,
                          xs: seq<Json>, ys: seq<Json>)
    requires ReadObject(d, VersionJsonPath(game, name), parseJson) == Ok(child)
    requires Parent(child) == Some(parent)
    requires ReadObject(d, VersionJsonPath(game, parent), parseJson) == Ok(base)
    requires Lookup(Object(base), ["libraries"]) == Some(Array(xs))
    requires Lookup(Object(child), ["libraries"]) == Some(Array(ys))
    requires ResolveVersion(d, parseJson, game, name).Ok?
    ensures Meta.Items(xs, Meta.DecodeLibrary).Ok? && Meta.Items(ys, Meta.DecodeLibrary).Ok?
    ensures ResolveVersion(d, parseJson, game, name).value.libraries ==
            Meta.Items(xs, Meta.DecodeLibrary).value + Meta.Items(ys, Meta.DecodeLibrary).value
  {
    LibrariesConcatenate(d, parseJson, game, name, child, parent, base, xs, ys);
    var j := MergedJson(d, parseJson, game, name).value;
    Meta.DecodeVersionLibraries(j);
    assert j.members["libraries"] == Array(xs + ys);
    Meta.ItemsAppend(xs, ys, Meta.DecodeLibrary);
  }
}
