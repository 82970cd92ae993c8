/** `extract_natives` (crates/smallauncher_lib/src/launch.rs:77-117): for every library with a
    native classifier for the host, open the classifier's jar under `libraries/` and copy each
    entry whose name ends in `.so`, `.dll` or `.dylib` to `bin/<entry name>`. The libraries'
    rules are not consulted here. */
module Natives {
  import opened Wrappers
  import opened Errors
  import opened Paths
  import opened Store
  import opened Layout
  import opened Rules
  import opened Outside
  import Meta
  import Fs
  import Classpath

  /** The native jar of a library for the host, if it has one. */
  function NativeJar(host: Host, lib: Meta.Library): (a: Option<Meta.Artifact>)
    ensures a.Some? <==> lib.downloads.Some? && lib.downloads.value.classifiers.Some?
                         && HostNative(lib.downloads.value.classifiers.value, host).Some?
  {
    match lib.downloads
    case None => None
    case Some(dl) =>
      match dl.classifiers
      case None => None
      case Some(c) => HostNative(c, host)
  }

  predicate EndsWith(s: string, suffix: string)
  {
    |suffix| <= |s| && s[|s| - |suffix|..] == suffix
  }

  /** The entry names that are extracted. */
  predicate IsNativeName(name: string)
  {
    EndsWith(name, ".so") || EndsWith(name, ".dll") || EndsWith(name, ".dylib")
  }

  /** Where an entry is extracted: the entry's full name, directories included, under `bin`. */
  function ExtractedPath(game: Path, name: string): Path
  {
    NativesDir(game) + [name]
  }

  /** One iteration of the inner loop (lines 105-113). */
  function ExtractEntry(d: Disk, game: Path, e: ZipEntry): (r: Effect)
    ensures !IsNativeName(e.name) ==> r == Effect(d, Done)
    ensures r.status.Done? && IsNativeName(e.name) ==>
              ExtractedPath(game, e.name) in r.disk.files && r.disk.files[ExtractedPath(game, e.name)] == e.data
    ensures forall q :: q != ExtractedPath(game, e.name) ==> (q in r.disk.files <==> q in d.files)
    ensures forall q :: q != ExtractedPath(game, e.name) && q in d.files ==> r.disk.files[q] == d.files[q]
  {
    if !IsNativeName(e.name) then Effect(d, Done)
    else
      var p := ExtractedPath(game, e.name);
      var c := CreateOrOpenFile(d, p);
      if !c.status.Done? then c else Store.Write(c.disk, p, e.data)
  }

  /** The inner loop, stopped by the first failure. */
  function ExtractEntries(d: Disk, game: Path, entries: seq<ZipEntry>): Effect
    decreases |entries|
  {
    if entries == [] then Effect(d, Done)
    else
      var e := ExtractEntry(d, game, entries[0]);
      if !e.status.Done? then e else ExtractEntries(e.disk, game, entries[1..])
  }

  /** One iteration of the outer loop (lines 78-114): a library without a native jar for the
      host is skipped; a jar that is not on disk is an `Io` error, one that is not a zip archive
      a `Zip` error. */
  function ExtractLibrary(d: Disk, host: Host, game: Path, lib: Meta.Library, unzip: Bytes -> Option<seq<ZipEntry>>): Effect
  {
    match NativeJar(host, lib)
    case None => Effect(d, Done)
    case Some(a) =>
      var jar := LibraryPath(game, a.path);
      if jar !in d.files then Effect(d, Failed(Io))
      else
        match unzip(d.files[jar])
        case None => Effect(d, Failed(Zip))
        case Some(entries) => ExtractEntries(d, game, entries)
  }

  /** The whole of `extract_natives`. */
  function ExtractAll(d: Disk, host: Host, game: Path, libs: seq<Meta.Library>, unzip: Bytes -> Option<seq<ZipEntry>>): Effect
    decreases |libs|
  {
    if libs == [] then Effect(d, Done)
    else
      var e := ExtractLibrary(d, host, game, libs[0], unzip);
      if !e.status.Done? then e else ExtractAll(e.disk, host, game, libs[1..], unzip)
  }

  /** `extract_natives`, performed in place. */
  method ExtractNatives(fs: Fs.FileSystem, host: Host, game: Path, libs: seq<Meta.Library>,
                        unzip: Bytes -> Option<seq<ZipEntry>>) returns (s: Status)
    modifies fs
    ensures Effect(fs.State(), s) == ExtractAll(old(fs.State()), host, game, libs, unzip)
  {
    ghost var d0 := fs.State();
    var i := 0;
    while i < |libs|
      invariant 0 <= i <= |libs|
      invariant ExtractAll(d0, host, game, libs, unzip) == ExtractAll(fs.State(), host, game, libs[i..], unzip)
    {
      assert libs[i..][1..] == libs[i + 1..];
      var lib := libs[i];
      i := i + 1;
      if lib.downloads.None? {
        continue;
      }
      var downloads := lib.downloads.value;
      if downloads.classifiers.None? {
        continue;
      }
      var native := HostNative(downloads.classifiers.value, host);
      if native.None? {
        continue;
      }
      var jar := LibraryPath(game, native.value.path);
      if jar !in fs.files {
        return Failed(Io);
      }
      var entries := unzip(fs.files[jar]);
      if entries.None? {
        return Failed(Zip);
      }
      s := ExtractJar(fs, game, entries.value);
      if s != Done {
        return;
      }
    }
    s := Done;
  }

  /** The inner loop of `extract_natives`, in place. */
  method ExtractJar(fs: Fs.FileSystem, game: Path, entries: seq<ZipEntry>) returns (s: Status)
    modifies fs
    ensures Effect(fs.State(), s) == ExtractEntries(old(fs.State()), game, entries)
  {
    ghost var d0 := fs.State();
    for j := 0 to |entries|
      invariant ExtractEntries(d0, game, entries) == ExtractEntries(fs.State(), game, entries[j..])
    {
      assert entries[j..][1..] == entries[j + 1..];
      var name := entries[j].name;
      if !(EndsWith(name, ".so") || EndsWith(name, ".dll") || EndsWith(name, ".dylib")) {
        continue;
      }
      var path := ExtractedPath(game, name);
      s := fs.CreateOrOpenFile(path);
      if s != Done {
        return;
      }
      s := fs.Write(path, entries[j].data);
      if s != Done {
        return;
      }
    }
    s := Done;
  }

  // ---------------------------------------------------------------- properties

  /** Extraction touches nothing but `bin/<name>` for the native entries' names. */
  lemma {:induction false} ExtractEntriesFrame(d: Disk, game: Path, entries: seq<ZipEntry>, q: Path)
    requires forall i :: 0 <= i < |entries| && IsNativeName(entries[i].name) ==> q != ExtractedPath(game, entries[i].name)
    ensures var r := ExtractEntries(d, game, entries);
            (q in r.disk.files <==> q in d.files) && (q in d.files ==> r.disk.files[q] == d.files[q])
    decreases |entries|
  {
    if entries != [] {
      var e := ExtractEntry(d, game, entries[0]);
      if e.status.Done? {
        forall i | 0 <= i < |entries| - 1 && IsNativeName(entries[1..][i].name)
          ensures q != ExtractedPath(game, entries[1..][i].name)
        {
          assert entries[1..][i] == entries[i + 1];
        }
        ExtractEntriesFrame(e.disk, game, entries[1..], q);
      }
    }
  }

  /** After a successful extraction, `bin/<name>` holds the last native entry of that name. */
  lemma {:induction false} ExtractEntriesWritten(d: Disk, game: Path, entries: seq<ZipEntry>, i: nat)
    requires ExtractEntries(d, game, entries).status.Done?
    requires i < |entries| && IsNativeName(entries[i].name)
    requires forall j :: i < j < |entries| ==> entries[j].name != entries[i].name
    ensures var r := ExtractEntries(d, game, entries).disk;
            ExtractedPath(game, entries[i].name) in r.files && r.files[ExtractedPath(game, entries[i].name)] == entries[i].data
    decreases |entries|
  {
    var e := ExtractEntry(d, game, entries[0]);
    if i == 0 {
      var p := ExtractedPath(game, entries[0].name);
      forall k | 0 <= k < |entries| - 1 && IsNativeName(entries[1..][k].name)
        ensures p != ExtractedPath(game, entries[1..][k].name)
      {
        assert entries[1..][k] == entries[k + 1];
        assert ExtractedPath(game, entries[k + 1].name)[|game| + 1] == entries[k + 1].name;
        assert p[|game| + 1] == entries[0].name;
      }
      ExtractEntriesFrame(e.disk, game, entries[1..], p);
    } else {
      assert entries[1..][i - 1] == entries[i];
      forall j | i - 1 < j < |entries| - 1 ensures entries[1..][j].name != entries[1..][i - 1].name {
        assert entries[1..][j] == entries[j + 1];
      }
      ExtractEntriesWritten(e.disk, game, entries[1..], i - 1);
    }
  }

  /** Rules play no part: libraries that differ only in their rules extract the same files. */
  lemma {:induction false} ExtractIgnoresRules(d: Disk, host: Host, game: Path, libs: seq<Meta.Library>,
                                               libs': seq<Meta.Library>, unzip: Bytes -> Option<seq<ZipEntry>>)
    requires |libs'| == |libs|
    requires forall i :: 0 <= i < |libs| ==> libs'[i].downloads == libs[i].downloads
    ensures ExtractAll(d, host, game, libs', unzip) == ExtractAll(d, host, game, libs, unzip)
    decreases |libs|
  {
    if libs != [] {
      assert ExtractLibrary(d, host, game, libs'[0], unzip) == ExtractLibrary(d, host, game, libs[0], unzip);
      var e := ExtractLibrary(d, host, game, libs[0], unzip);
      if e.status.Done? {
        ExtractIgnoresRules(e.disk, host, game, libs[1..], libs'[1..], unzip);
      }
    }
  }

  /** Whether a path is a direct child of `bin`, the only kind of path extraction writes. */
  predicate InNativesDir(game: Path, q: Path)
  {
    |q| == |game| + 2 && q[..|game| + 1] == NativesDir(game)
  }

  lemma ExtractLibraryFrame(d: Disk, host: Host, game: Path, lib: Meta.Library, unzip: Bytes -> Option<seq<ZipEntry>>, q: Path)
    requires !InNativesDir(game, q)
    ensures var r := ExtractLibrary(d, host, game, lib, unzip);
            (q in r.disk.files <==> q in d.files) && (q in d.files ==> r.disk.files[q] == d.files[q])
  {
    match NativeJar(host, lib)
    case None =>
    case Some(a) =>
      var jar := LibraryPath(game, a.path);
      if jar in d.files && unzip(d.files[jar]).Some? {
        var entries := unzip(d.files[jar]).value;
        forall i | 0 <= i < |entries| && IsNativeName(entries[i].name)
          ensures q != ExtractedPath(game, entries[i].name)
        {
          assert ExtractedPath(game, entries[i].name)[..|game| + 1] == NativesDir(game);
        }
        ExtractEntriesFrame(d, game, entries, q);
      }
  }

  /** `extract_natives` leaves every file that is not directly under `bin` as it was, even when
      it fails part way. */
  lemma {:induction false} ExtractAllFrame(d: Disk, host: Host, game: Path, libs: seq<Meta.Library>,
                                           unzip: Bytes -> Option<seq<ZipEntry>>, q: Path)
    requires !InNativesDir(game, q)
    ensures var r := ExtractAll(d, host, game, libs, unzip);
            (q in r.disk.files <==> q in d.files) && (q in d.files ==> r.disk.files[q] == d.files[q])
    decreases |libs|
  {
    if libs != [] {
      var e := ExtractLibrary(d, host, game, libs[0], unzip);
      ExtractLibraryFrame(d, host, game, libs[0], unzip, q);
      if e.status.Done? {
        ExtractAllFrame(e.disk, host, game, libs[1..], unzip, q);
      }
    }
  }

  // ------------------------------------------------------- where an entry name lands

  /** Whether `q` is `bin` or lies anywhere below it. */
  predicate UnderNativesDir(game: Path, q: Path)
  {
    |NativesDir(game)| <= |q| && q[..|NativesDir(game)|] == NativesDir(game)
  }

  /** One component of a relative name applied to a directory, as the operating system
      resolves it: `..` goes up, an empty component and `.` stay, anything else goes down. */
  function ResolveComponent(dir: Path, c: string): Path
  {
    if c == ".." then (if dir == [] then [] else dir[..|dir| - 1])
    else if c == "" || c == "." then dir
    else dir + [c]
  }

  /** The components of a name applied one after another. */
  function ResolveComponents(dir: Path, cs: seq<string>): Path
    decreases |cs|
  {
    if cs == [] then dir else ResolveComponents(ResolveComponent(dir, cs[0]), cs[1..])
  }

  /** Where `path!(game_path, "bin", name)` (line 108) lands once the file is opened: the raw
      entry name is split at `/`, and an absolute name replaces the whole path. The root is
      the empty path. */
  function Landing(game: Path, name: string): Path
  {
    if |name| > 0 && name[0] == '/' then ResolveComponents([], Classpath.Split(name, '/'))
    else ResolveComponents(NativesDir(game), Classpath.Split(name, '/'))
  }

  /** A name without `/`, other than `.` and `..`, lands where the model writes it:
      `ExtractedPath` is the real target for such names. */
  lemma PlainNameLanding(game: Path, name: string)
    requires name != "" && name != "." && name != ".." && '/' !in name
    ensures Landing(game, name) == ExtractedPath(game, name)
    ensures InNativesDir(game, Landing(game, name))
  {
    assert name[0] in name;
    assert Classpath.Split(name, '/') == [name];
    assert ResolveComponents(NativesDir(game), [name]) == ResolveComponents(NativesDir(game) + [name], []);
    assert ExtractedPath(game, name)[..|game| + 1] == NativesDir(game);
  }

  /** A prefix does not change which suffix a name ends in. */
  lemma NativeNameWithPrefix(prefix: string, file: string)
    requires IsNativeName(file)
    ensures IsNativeName(prefix + file)
  {
    var name := prefix + file;
    if EndsWith(file, ".so") {
      assert name[|name| - 3..] == file[|file| - 3..];
    } else if EndsWith(file, ".dll") {
      assert name[|name| - 4..] == file[|file| - 4..];
    } else {
      assert name[|name| - 6..] == file[|file| - 6..];
    }
  }

  /** The components of `../<file>`. */
  lemma SplitParentName(file: string)
    requires '/' !in file
    ensures Classpath.Split("../" + file, '/') == ["..", file]
  {
    var name := "../" + file;
    assert name[0] == '.' && name[1] == '.' && name[2] == '/';
    assert Classpath.Find(name[2..], '/') == Some(0);
    assert Classpath.Find(name[1..], '/') == Some(1);
    assert Classpath.Find(name, '/') == Some(2);
    assert name[..2] == ".." && name[3..] == file;
    assert Classpath.Split(file, '/') == [file];
  }

  /** As written: an entry named `../<file>` passes the suffix test and is written next to
      `bin`, in the game directory itself, not below `bin`. */
  lemma ParentEntryEscapes(game: Path, file: string)
    requires IsNativeName(file) && '/' !in file
    ensures IsNativeName("../" + file)
    ensures Landing(game, "../" + file) == game + [file]
    ensures !UnderNativesDir(game, Landing(game, "../" + file))
  {
    NativeNameWithPrefix("../", file);
    SplitParentName(file);
    assert file != "" && file != "." && file != ".." && file != "bin";
    assert ResolveComponent(NativesDir(game), "..") == game;
    assert ResolveComponents(game, [file]) == ResolveComponents(game + [file], []);
    assert Landing(game, "../" + file) == ResolveComponents(game, [file]);
    assert (game + [file])[|game|] == file && NativesDir(game)[|game|] == "bin";
  }

  /** The components of `/<file>`. */
  lemma SplitAbsoluteName(file: string)
    requires '/' !in file
    ensures Classpath.Split("/" + file, '/') == ["", file]
  {
    var name := "/" + file;
    assert Classpath.Find(name, '/') == Some(0);
    assert name[1..] == file;
    assert Classpath.Split(file, '/') == [file];
  }

  /** As written: an absolute entry name `/<file>` passes the suffix test and is written at
      the root, outside the game directory. */
  lemma AbsoluteEntryEscapes(game: Path, file: string)
    requires IsNativeName(file) && '/' !in file
    ensures IsNativeName("/" + file)
    ensures Landing(game, "/" + file) == [file]
    ensures !UnderNativesDir(game, Landing(game, "/" + file))
  {
    NativeNameWithPrefix("/", file);
    SplitAbsoluteName(file);
    assert file != "" && file != "." && file != ".." && file != "bin";
    assert ResolveComponents([], ["", file]) == ResolveComponents([], [file]);
    assert ResolveComponents([], [file]) == ResolveComponents([file], []);
  }

  /** The components of a name that stay below the directory, or `None` when the name is
      absolute or has a `..` component: the check the `zip` crate offers as
      `enclosed_name`. */
  function EnclosedName(name: string): (r: Option<seq<string>>)
    ensures r.None? <==> (|name| > 0 && name[0] == '/') || ".." in Classpath.Split(name, '/')
  {
    var cs := Classpath.Split(name, '/');
    if (|name| > 0 && name[0] == '/') || ".." in cs then None else Some(Downward(cs))
  }

  /** The components that go down a level. */
  function Downward(cs: seq<string>): (r: seq<string>)
    ensures forall i :: 0 <= i < |r| ==> r[i] in cs && r[i] != "" && r[i] != "."
    decreases |cs|
  {
    if cs == [] then []
    else if cs[0] == "" || cs[0] == "." then Downward(cs[1..])
    else [cs[0]] + Downward(cs[1..])
  }

  /** Without `..`, resolving only goes down. */
  lemma {:induction false} ResolveDownward(dir: Path, cs: seq<string>)
    requires ".." !in cs
    ensures ResolveComponents(dir, cs) == dir + Downward(cs)
    decreases |cs|
  {
    if cs != [] {
      assert ".." !in cs[1..] by {
        forall i | 0 <= i < |cs[1..]| ensures cs[1..][i] != ".." {
          assert cs[1..][i] == cs[i + 1];
        }
      }
      ResolveDownward(ResolveComponent(dir, cs[0]), cs[1..]);
    }
  }

  /** Corrected: where an entry is extracted once unsafe names are skipped. */
  function CheckedExtractedPath(game: Path, name: string): Option<Path>
  {
    match EnclosedName(name)
    case None => None
    case Some(cs) => Some(NativesDir(game) + cs)
  }

  /** Corrected: every name that is not skipped lands below `bin`, exactly where the checked
      path says; plain names keep the path the model writes. */
  lemma CheckedPathStaysInBin(game: Path, name: string)
    ensures CheckedExtractedPath(game, name).Some? ==>
              CheckedExtractedPath(game, name).value == Landing(game, name)
              && UnderNativesDir(game, Landing(game, name))
    ensures name != "" && name != "." && name != ".." && '/' !in name ==>
              CheckedExtractedPath(game, name) == Some(ExtractedPath(game, name))
  {
    var cs := Classpath.Split(name, '/');
    if EnclosedName(name).Some? {
      ResolveDownward(NativesDir(game), cs);
      var p := NativesDir(game) + Downward(cs);
      assert p[..|NativesDir(game)|] == NativesDir(game);
    }
    if name != "" && name != "." && name != ".." && '/' !in name {
      assert cs == [name];
      assert Downward(cs) == [name];
    }
  }
}
