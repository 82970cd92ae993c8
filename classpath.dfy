/** `get_class_paths` (crates/smallauncher_lib/src/launch.rs:206-276): the client jar, then one
    entry per library in declaration order, each preceded by the platform's separator. A library
    with an `artifact` contributes `libraries/<artifact path>` when its rules allow it; any other
    library contributes the path derived from its Maven coordinate, without consulting its rules. */
module Classpath {
  import opened Wrappers
  import opened Paths
  import opened Layout
  import opened Rules
  import opened Meta

  // ---------------------------------------------------------------- splitting text

  /** `str::find` for one character: the first index holding `c`. */
  function Find(s: string, c: char): (r: Option<nat>)
    ensures r.None? <==> c !in s
    ensures r.Some? ==> r.value < |s| && s[r.value] == c && c !in s[..r.value]
  {
    if s == [] then None
    else if s[0] == c then Some(0)
    else match Find(s[1..], c)
         case None => None
         case Some(i) =>
           assert s[..i + 1] == [s[0]] + s[1..][..i];
           Some(i + 1)
  }

  /** In `a`, `c`, `b` with no `c` in `a`, the first `c` is the one after `a`. */
  lemma {:induction false} FindAfter(a: string, c: char, b: string)
    requires c !in a
    ensures Find(a + [c] + b, c) == Some(|a|)
    ensures (a + [c] + b)[..|a|] == a && (a + [c] + b)[|a| + 1..] == b
  {
    var s := a + [c] + b;
    if a != [] {
      assert s[0] == a[0];
      assert s[1..] == a[1..] + [c] + b;
      FindAfter(a[1..], c, b);
    }
  }

  /** The pieces between the occurrences of `c`. */
  function Split(s: string, c: char): (parts: seq<string>)
    ensures |parts| >= 1
    ensures forall i :: 0 <= i < |parts| ==> c !in parts[i]
    decreases |s|
  {
    match Find(s, c)
    case None => [s]
    case Some(i) => [s[..i]] + Split(s[i + 1..], c)
  }

  /** The pieces written out with `c` between neighbours. */
  function Join(parts: seq<string>, c: char): string
    requires parts != []
  {
    if |parts| == 1 then parts[0] else parts[0] + [c] + Join(parts[1..], c)
  }

  /** Joining after a first piece puts a separator behind it. */
  lemma JoinCons(a: string, rest: seq<string>, c: char)
    requires rest != []
    ensures Join([a] + rest, c) == a + [c] + Join(rest, c)
  {
    assert ([a] + rest)[1..] == rest;
  }

  lemma {:induction false} SplitJoin(s: string, c: char)
    ensures Join(Split(s, c), c) == s
    decreases |s|
  {
    match Find(s, c)
    case None =>
    case Some(i) =>
      SplitJoin(s[i + 1..], c);
      assert Split(s, c)[1..] == Split(s[i + 1..], c);
      assert s == s[..i] + [c] + s[i + 1..];
  }

  lemma {:induction false} JoinSplit(parts: seq<string>, c: char)
    requires parts != []
    requires forall i :: 0 <= i < |parts| ==> c !in parts[i]
    ensures Split(Join(parts, c), c) == parts
  {
    if |parts| > 1 {
      var rest := Join(parts[1..], c);
      FindAfter(parts[0], c, rest);
      JoinSplit(parts[1..], c);
    }
  }

  function Count(s: string, c: char): nat
  {
    if s == [] then 0 else (if s[0] == c then 1 else 0) + Count(s[1..], c)
  }

  lemma {:induction false} CountAppend(a: string, b: string, c: char)
    ensures Count(a + b, c) == Count(a, c) + Count(b, c)
  {
    if a != [] {
      assert (a + b)[1..] == a[1..] + b;
      CountAppend(a[1..], b, c);
    } else {
      assert a + b == b;
    }
  }

  lemma {:induction false} CountAbsent(s: string, c: char)
    requires c !in s
    ensures Count(s, c) == 0
  {
    if s != [] {
      CountAbsent(s[1..], c);
    }
  }

  /** Joined pieces that do not contain `c` hold one `c` fewer than there are pieces. */
  lemma {:induction false} CountJoin(parts: seq<string>, c: char)
    requires parts != []
    requires forall i :: 0 <= i < |parts| ==> c !in parts[i]
    ensures Count(Join(parts, c), c) == |parts| - 1
  {
    CountAbsent(parts[0], c);
    if |parts| > 1 {
      CountJoin(parts[1..], c);
      CountAppend(parts[0], [c], c);
      CountAppend(parts[0] + [c], Join(parts[1..], c), c);
    }
  }

  // ---------------------------------------------------------------- Maven coordinates

  /** A coordinate `group:name:version` read the way lines 251-268 read it: the group, up to
      the first `:`, split at every `.`; the rest split at its first `:` into name and version.
      Without a first `:` there are no directories; without a second, name and version are empty. */
  datatype Coordinate = Coordinate(dirs: seq<string>, name: string, version: string)

  function ParseCoordinate(s: string): (c: Coordinate)
    ensures ':' !in s ==> c == Coordinate([], "", "")
  {
    match Find(s, ':')
    case None => NameVersion([], s)
    case Some(i) => NameVersion(Split(s[..i], '.'), s[i + 1..])
  }

  /** The part after the group, split at its first `:`. */
  function NameVersion(dirs: seq<string>, rest: string): (c: Coordinate)
    ensures c.dirs == dirs
    ensures ':' !in rest ==> c.name == "" && c.version == ""
  {
    match Find(rest, ':')
    case None => Coordinate(dirs, "", "")
    case Some(j) => Coordinate(dirs, rest[..j], rest[j + 1..])
  }

  /** The coordinate text that parses back to its parts: only the version may hold a `:`. */
  lemma ParseCoordinateOf(group: string, name: string, version: string)
    requires ':' !in group && ':' !in name
    ensures ParseCoordinate(group + ":" + name + ":" + version) == Coordinate(Split(group, '.'), name, version)
  {
    var rest := name + [':'] + version;
    assert group + ":" + name + ":" + version == group + [':'] + rest;
    FindAfter(group, ':', rest);
    FindAfter(name, ':', version);
  }

  /** `libraries/<dirs>/<name>/<version>/<name>-<version>.jar` under the game directory. */
  function MavenPath(game: Path, coordinate: string): Path
  {
    var c := ParseCoordinate(coordinate);
    game + ["libraries"] + c.dirs + [c.name, c.version, c.name + "-" + c.version + ".jar"]
  }

  /** Lines 251-270 as written: a `while` loop peels one directory off the group at a time. */
  method MavenPathOf(game: Path, coordinate: string) returns (p: Path)
    ensures p == MavenPath(game, coordinate)
  {
    var originalName := coordinate;
    var name := "";
    var version := "";
    var path: Path := [];
    var colon := Find(originalName, ':');
    if colon.Some? {
      var paths := originalName[..colon.value];
      ghost var group := paths;
      originalName := originalName[colon.value + 1..];
      var dot := Find(paths, '.');
      while dot.Some?
        invariant dot == Find(paths, '.')
        invariant Split(group, '.') == path + Split(paths, '.')
        decreases |paths|
      {
        path := path + [paths[..dot.value]];
        paths := paths[dot.value + 1..];
        dot := Find(paths, '.');
      }
      path := path + [paths];
    }
    var second := Find(originalName, ':');
    if second.Some? {
      name := originalName[..second.value];
      version := originalName[second.value + 1..];
    }
    p := game + ["libraries"] + path + [name, version, name + "-" + version + ".jar"];
  }

  /** `group:name:version` lives at `libraries/<group's dots as directories>/<name>/<version>/
      <name>-<version>.jar`. */
  lemma MavenPathOfParts(game: Path, group: string, name: string, version: string)
    requires ':' !in group && ':' !in name
    ensures MavenPath(game, group + ":" + name + ":" + version)
         == game + ["libraries"] + Split(group, '.') + [name, version, name + "-" + version + ".jar"]
  {
    ParseCoordinateOf(group, name, version);
  }

  // ---------------------------------------------------------------- the classpath

  /** The separator as a character. */
  function SeparatorChar(host: Host): (c: char)
    ensures [c] == ClasspathSeparator(host)
  {
    if host.os == TargetWindows then ';' else ':'
  }

  /** What one library adds: `None` when its rules exclude it. */
  function LibraryEntry(lib: Meta.Library, game: Path, host: Host): Option<Path>
  {
    match lib.downloads
    case Some(LibraryDownload(Some(artifact), _)) =>
      if AllowsOpt(lib.rules, host) then Some(LibraryPath(game, artifact.path)) else None
    case _ => Some(MavenPath(game, lib.name))
  }

  /** A library with an artifact is kept exactly when its rules allow the host, at its
      artifact path; any other library is kept at its Maven path. */
  lemma LibraryEntryCases(lib: Meta.Library, game: Path, host: Host)
    ensures var r := LibraryEntry(lib, game, host);
      && (lib.downloads.Some? && lib.downloads.value.artifact.Some? ==>
            (r.Some? <==> AllowsOpt(lib.rules, host))
            && (r.Some? ==> r.value == LibraryPath(game, lib.downloads.value.artifact.value.path)))
      && (!(lib.downloads.Some? && lib.downloads.value.artifact.Some?) ==>
            r == Some(MavenPath(game, lib.name)))
  {
  }

  /** The libraries' entries, in declaration order. */
  function Retained(libs: seq<Meta.Library>, game: Path, host: Host): (ps: seq<Path>)
    ensures |ps| <= |libs|
  {
    if libs == [] then []
    else
      match LibraryEntry(libs[0], game, host)
      case None => Retained(libs[1..], game, host)
      case Some(p) => [p] + Retained(libs[1..], game, host)
  }

  /** What one library appends to the list: its entry behind a separator, or nothing. */
  function Piece(lib: Meta.Library, game: Path, host: Host): string
  {
    PieceOf(LibraryEntry(lib, game, host), host)
  }

  function PieceOf(entry: Option<Path>, host: Host): string
  {
    match entry
    case None => ""
    case Some(p) => ClasspathSeparator(host) + Render(p, PathSeparator(host))
  }

  /** What the libraries append to the list. */
  function Listed(libs: seq<Meta.Library>, game: Path, host: Host): string
  {
    if libs == [] then "" else Piece(libs[0], game, host) + Listed(libs[1..], game, host)
  }

  lemma {:induction false} ListedAppend(a: seq<Meta.Library>, b: seq<Meta.Library>, game: Path, host: Host)
    ensures Listed(a + b, game, host) == Listed(a, game, host) + Listed(b, game, host)
  {
    if a == [] {
      assert a + b == b;
    } else {
      assert (a + b)[1..] == a[1..] + b;
      ListedAppend(a[1..], b, game, host);
    }
  }

  lemma ListedSnoc(libs: seq<Meta.Library>, i: nat, game: Path, host: Host)
    requires i < |libs|
    ensures Listed(libs[..i + 1], game, host) == Listed(libs[..i], game, host) + Piece(libs[i], game, host)
  {
    assert libs[..i + 1] == libs[..i] + [libs[i]];
    ListedAppend(libs[..i], [libs[i]], game, host);
    assert Listed([libs[i]], game, host) == Piece(libs[i], game, host) + "";
  }

  lemma ConcatAssoc(a: string, b: string, c: string)
    ensures (a + b) + c == a + (b + c)
  {
  }

  /** The value of `get_class_paths`. */
  function ClassPath(meta: Meta.Version, game: Path, host: Host): string
  {
    Render(ClientJarPath(game, meta.id), PathSeparator(host)) + Listed(meta.libraries, game, host)
  }

  /** The body of the labelled library loop (lines 226-272): `None` is its `continue`. */
  method ClassPathEntry(lib: Meta.Library, game: Path, host: Host) returns (entry: Option<Path>)
    ensures entry == LibraryEntry(lib, game, host)
  {
    if lib.downloads.Some? && lib.downloads.value.artifact.Some? {
      var allowed := true;
      if lib.rules.Some? {
        allowed := CheckRules(lib.rules.value, host);
      }
      if !allowed {
        return None;
      }
      return Some(LibraryPath(game, lib.downloads.value.artifact.value.path));
    }
    var path := MavenPathOf(game, lib.name);
    return Some(path);
  }

  /** `get_class_paths` as written, with its labelled library loop. */
  method GetClassPaths(meta: Meta.Version, game: Path, host: Host) returns (list: string)
    ensures list == ClassPath(meta, game, host)
  {
    var sep := PathSeparator(host);
    list := Render(ClientJarPath(game, meta.id), sep);
    var libs := meta.libraries;
    ghost var client := list;
    for i := 0 to |libs|
      invariant list == client + Listed(libs[..i], game, host)
    {
      ListedSnoc(libs, i, game, host);
      var entry := ClassPathEntry(libs[i], game, host);
      if entry.None? {
        continue;
      }
      var piece := ClasspathSeparator(host) + Render(entry.value, sep);
      ConcatAssoc(client, Listed(libs[..i], game, host), piece);
      list := list + piece;
    }
    assert libs[..|libs|] == libs;
  }

  // ---------------------------------------------------------------- properties

  function RenderAll(ps: seq<Path>, sep: char): (ss: seq<string>)
    ensures |ss| == |ps|
  {
    if ps == [] then [] else [Render(ps[0], sep)] + RenderAll(ps[1..], sep)
  }

  /** Every piece behind its own separator. */
  function Prefixed(parts: seq<string>, c: char): string
  {
    if parts == [] then "" else [c] + parts[0] + Prefixed(parts[1..], c)
  }

  lemma {:induction false} JoinPrefixed(first: string, parts: seq<string>, c: char)
    ensures first + Prefixed(parts, c) == Join([first] + parts, c)
    decreases |parts|
  {
    if parts == [] {
      assert [first] + parts == [first];
    } else {
      JoinPrefixed(parts[0], parts[1..], c);
      assert [parts[0]] + parts[1..] == parts;
      JoinCons(first, parts, c);
      calc {
        first + Prefixed(parts, c);
        first + ([c] + parts[0] + Prefixed(parts[1..], c));
        first + [c] + (parts[0] + Prefixed(parts[1..], c));
      }
    }
  }

  lemma {:induction false} ListedPrefixed(libs: seq<Meta.Library>, game: Path, host: Host)
    ensures Listed(libs, game, host) == Prefixed(RenderAll(Retained(libs, game, host), PathSeparator(host)), SeparatorChar(host))
    decreases |libs|
  {
    if libs != [] {
      ListedPrefixed(libs[1..], game, host);
      var e := LibraryEntry(libs[0], game, host);
      if e.Some? {
        var sep, c := PathSeparator(host), SeparatorChar(host);
        var rest := RenderAll(Retained(libs[1..], game, host), sep);
        var all := RenderAll(Retained(libs, game, host), sep);
        assert Retained(libs, game, host)[1..] == Retained(libs[1..], game, host);
        assert all[0] == Render(e.value, sep) && all[1..] == rest;
        assert Piece(libs[0], game, host) == [c] + all[0];
      }
    }
  }

  lemma ListedJoin(first: string, libs: seq<Meta.Library>, game: Path, host: Host)
    ensures first + Listed(libs, game, host)
         == Join([first] + RenderAll(Retained(libs, game, host), PathSeparator(host)), SeparatorChar(host))
  {
    ListedPrefixed(libs, game, host);
    JoinPrefixed(first, RenderAll(Retained(libs, game, host), PathSeparator(host)), SeparatorChar(host));
  }

  /** Cut at the separator, the classpath gives back the client jar and then every retained
      library in declaration order, when no rendered path holds the separator itself. */
  lemma ClassPathEntries(meta: Meta.Version, game: Path, host: Host)
    requires var ps := [ClientJarPath(game, meta.id)] + Retained(meta.libraries, game, host);
             forall i :: 0 <= i < |ps| ==> SeparatorChar(host) !in Render(ps[i], PathSeparator(host))
    ensures Split(ClassPath(meta, game, host), SeparatorChar(host))
         == RenderAll([ClientJarPath(game, meta.id)] + Retained(meta.libraries, game, host), PathSeparator(host))
    ensures Count(ClassPath(meta, game, host), SeparatorChar(host)) == |Retained(meta.libraries, game, host)|
  {
    var client := ClientJarPath(game, meta.id);
    var rest := Retained(meta.libraries, game, host);
    var parts := RenderAll([client] + rest, PathSeparator(host));
    assert ([client] + rest)[1..] == rest;
    ListedJoin(Render(client, PathSeparator(host)), meta.libraries, game, host);
    RenderAllAt([client] + rest, PathSeparator(host));
    JoinSplit(parts, SeparatorChar(host));
    CountJoin(parts, SeparatorChar(host));
  }

  lemma {:induction false} RenderAllAt(ps: seq<Path>, sep: char)
    ensures forall i :: 0 <= i < |ps| ==> RenderAll(ps, sep)[i] == Render(ps[i], sep)
  {
    if ps != [] {
      RenderAllAt(ps[1..], sep);
    }
  }

  /** A library without an artifact is on the classpath whatever its rules say. */
  lemma MavenLibraryIgnoresRules(lib: Meta.Library, rules: Option<seq<Meta.Rule>>, game: Path, host: Host)
    requires lib.downloads.None? || lib.downloads.value.artifact.None?
    ensures LibraryEntry(lib.(rules := rules), game, host) == Some(MavenPath(game, lib.name))
  {
  }
}
