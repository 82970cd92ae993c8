/** Untyped JSON values (serde_json::Value). Objects are maps, as serde_json's default
    `Map` is a `BTreeMap`; numbers are integers. */
module Json {
  import opened Wrappers

  datatype Json =
    | Null
    | Bool(b: bool)
    | Number(n: int)
    | Str(s: string)
    | Array(items: seq<Json>)
    | Object(members: map<string, Json>)

  /** The value reached from `j` by following `path`, one object key at a time. */
  function Lookup(j: Json, path: seq<string>): Option<Json>
  {
    if path == [] then Some(j)
    else if j.Object? && path[0] in j.members then Lookup(j.members[path[0]], path[1..])
    else None
  }

  /** A value that is neither an object nor an array. */
  predicate IsScalar(j: Json)
  {
    !j.Object? && !j.Array?
  }
}
