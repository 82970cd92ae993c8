/** Paths and OS strings as the `path!` and `osStr!` macros build them
    (crates/smallauncher_lib/src/file.rs:28-57). A path is the sequence of segments pushed onto it;
    one push appends one segment as it is. */
module Paths {

  type Path = seq<string>

  /** The segments of several paths pushed one after another. */
  function Flatten(parts: seq<Path>): Path
  {
    if parts == [] then [] else parts[0] + Flatten(parts[1..])
  }

  lemma {:induction false} FlattenAppend(a: seq<Path>, b: seq<Path>)
    ensures Flatten(a + b) == Flatten(a) + Flatten(b)
  {
    if a != [] {
      assert (a + b)[1..] == a[1..] + b;
      FlattenAppend(a[1..], b);
    } else {
      assert a + b == b;
    }
  }

  /** `path!(p1, ..., pn)`: a new `PathBuf` onto which every argument is pushed in turn;
      `path!()` is the empty path. */
  method BuildPath(parts: seq<Path>) returns (path: Path)
    ensures path == Flatten(parts)
    ensures parts == [] ==> path == []
  {
    path := [];
    for i := 0 to |parts|
      invariant path == Flatten(parts[..i])
    {
      FlattenAppend(parts[..i], [parts[i]]);
      assert parts[..i + 1] == parts[..i] + [parts[i]];
      path := path + parts[i];
    }
    assert parts[..|parts|] == parts;
  }

  /** Plain concatenation, without separator. */
  function Concat(parts: seq<string>): string
  {
    if parts == [] then "" else parts[0] + Concat(parts[1..])
  }

  lemma {:induction false} ConcatAppend(a: seq<string>, b: seq<string>)
    ensures Concat(a + b) == Concat(a) + Concat(b)
  {
    if a != [] {
      assert (a + b)[1..] == a[1..] + b;
      ConcatAppend(a[1..], b);
    } else {
      assert a + b == b;
    }
  }

  /** `osStr!(s1, ..., sn)`: a new `OsString` onto which every argument is pushed in turn;
      `osStr!()` is the empty string. */
  method BuildOsStr(parts: seq<string>) returns (s: string)
    ensures s == Concat(parts)
    ensures parts == [] ==> s == ""
  {
    s := "";
    for i := 0 to |parts|
      invariant s == Concat(parts[..i])
    {
      ConcatAppend(parts[..i], [parts[i]]);
      assert parts[..i + 1] == parts[..i] + [parts[i]];
      s := s + parts[i];
    }
    assert parts[..|parts|] == parts;
  }

  /** The text of a path: its segments joined by the platform's separator character. */
  function Render(p: Path, sep: char): string
  {
    if |p| == 0 then ""
    else if |p| == 1 then p[0]
    else Render(p[..|p| - 1], sep) + [sep] + p[|p| - 1]
  }

  /** Rendering a longer path extends the rendering of its prefix. */
  lemma {:induction false} RenderAppend(a: Path, b: Path, sep: char)
    requires a != [] && b != []
    ensures Render(a + b, sep) == Render(a, sep) + [sep] + Render(b, sep)
    decreases |b|
  {
    if |b| == 1 {
      assert (a + b)[..|a + b| - 1] == a;
    } else {
      var b' := b[..|b| - 1];
      assert (a + b)[..|a + b| - 1] == a + b';
      assert (a + b)[|a + b| - 1] == b[|b| - 1];
      RenderAppend(a, b', sep);
    }
  }
}
