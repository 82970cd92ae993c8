/** `download_minecraft_version` (crates/smallauncher_lib/src/download.rs:14-175) as the
    procedure it is: each block of the source is a method that changes the filesystem in place,
    and each method is proved to do exactly what the corresponding steps of module `Download`
    do. */
module Installer {
  import opened Wrappers
  import opened Errors
  import opened Paths
  import opened Store
  import opened Plan
  import opened Layout
  import opened Rules
  import opened Outside
  import opened Download
  import Meta
  import Manifest
  import JavaApi
  import AssetsApi
  import Fs

  /** The hash-gated download (for example lines 32-36 and 156-160): keep a file whose digest
      already matches, otherwise create it, copy the response body into it and, if asked, set
      mode 0755. */
  method EnsureFile(fs: Fs.FileSystem, path: Path, sha1: string, url: string, mode755: bool,
                    fetch: string -> Result<Bytes, Error>, sha1Hex: Bytes -> string) returns (s: Status)
    modifies fs
    ensures Effect(fs.State(), s) == Plan.EnsureFile(old(fs.State()), path, sha1, url, mode755, fetch, sha1Hex)
  {
    var hashed := fs.FileHash(sha1, path, sha1Hex);
    if hashed.Ok? && hashed.value {
      return Done;
    }
    s := fs.CreateOrOpenFile(path);
    if s != Done {
      return;
    }
    var body := fetch(url);
    if body.Err? {
      return Failed(body.error);
    }
    s := fs.Write(path, body.value);
    if mode755 {
      fs.SetMode755(path);
    }
  }

  /** Lines 25-39. */
  method InstallVersionFiles(fs: Fs.FileSystem, game: Path, r: Resolved,
                             fetch: string -> Result<Bytes, Error>, sha1Hex: Bytes -> string) returns (s: Status)
    modifies fs
    ensures Effect(fs.State(), s) == Run(old(fs.State()), VersionFileOps(game, r), fetch, sha1Hex)
  {
    ghost var rest := VersionFileOps(game, r);
    ghost var d := fs.State();
    var pathMeta := VersionJsonPath(game, r.stub.id);
    var pathAssets := AssetIndexPath(game, r.meta.assetIndex.id);
    s := fs.CreateOrOpenFile(pathMeta);
    RunCons(d, rest, fetch, sha1Hex);
    if s != Done {
      return;
    }
    rest, d := rest[1..], fs.State();
    s := fs.CreateOrOpenFile(pathAssets);
    RunCons(d, rest, fetch, sha1Hex);
    if s != Done {
      return;
    }
    assert rest[1..] == VersionFileOps(game, r)[2..];
    s := WriteVersionFiles(fs, game, r, fetch, sha1Hex);
  }

  /** Lines 32-39, once both JSON files are open: the client jar, then the two JSON files. */
  method WriteVersionFiles(fs: Fs.FileSystem, game: Path, r: Resolved,
                           fetch: string -> Result<Bytes, Error>, sha1Hex: Bytes -> string) returns (s: Status)
    modifies fs
    ensures Effect(fs.State(), s) == Run(old(fs.State()), VersionFileOps(game, r)[2..], fetch, sha1Hex)
  {
    ghost var rest := VersionFileOps(game, r)[2..];
    ghost var d := fs.State();
    var client := r.meta.downloads.client;
    var pathClient := ClientJarPath(game, r.stub.id);
    var pathMeta := VersionJsonPath(game, r.stub.id);
    var pathAssets := AssetIndexPath(game, r.meta.assetIndex.id);
    s := EnsureFile(fs, pathClient, client.sha1, client.url, false, fetch, sha1Hex);
    RunCons(d, rest, fetch, sha1Hex);
    if s != Done {
      return;
    }
    rest, d := rest[1..], fs.State();
    s := fs.Write(pathMeta, r.metaJson);
    RunCons(d, rest, fetch, sha1Hex);
    if s != Done {
      return;
    }
    rest, d := rest[1..], fs.State();
    assert rest == [Write(pathAssets, r.assetsJson)];
    RunSingle(d, Write(pathAssets, r.assetsJson), fetch, sha1Hex);
    s := fs.Write(pathAssets, r.assetsJson);
  }

  /** Lines 43-46. */
  method WriteProfileStub(fs: Fs.FileSystem, game: Path,
                          fetch: string -> Result<Bytes, Error>, sha1Hex: Bytes -> string) returns (s: Status)
    modifies fs
    ensures Effect(fs.State(), s) == Run(old(fs.State()), ProfileOps(game), fetch, sha1Hex)
  {
    var profilePath := ProfilePath(game);
    if !fs.Exists(profilePath) {
      s := fs.WriteNew(profilePath, ProfileStubBytes);
    } else {
      s := Done;
    }
  }

  /** One entry of the runtime's file list (lines 72-98). */
  method InstallRuntimeFile(fs: Fs.FileSystem, host: Host, jre: Path, component: string, entry: (string, JavaApi.JavaFile),
                            fetch: string -> Result<Bytes, Error>, sha1Hex: Bytes -> string) returns (s: Status)
    modifies fs
    ensures Effect(fs.State(), s) == Run(old(fs.State()), RuntimeFileOps(host, jre, component, entry), fetch, sha1Hex)
  {
    var path := RuntimeFilePath(jre, component, entry.0);
    match entry.1
    case Directory =>
      s := fs.CreateDirAll(path);
    case Link(_) =>
      s := Done;
    case File(executable, downloads) =>
      s := EnsureFile(fs, path, downloads.raw.sha1, downloads.raw.url, executable && IsUnix(host), fetch, sha1Hex);
  }

  /** Lines 49-101: resolve the runtime for the version's Java component, then install its
      files in the order of the file list. */
  method InstallJavaRuntime(fs: Fs.FileSystem, remote: Remote, host: Host, jre: Path, component: string,
                            sha1Hex: Bytes -> string) returns (s: Status)
    modifies fs
    ensures Effect(fs.State(), s) == Run(old(fs.State()), JavaOps(remote, host, jre, component), remote.fetch, sha1Hex)
  {
    var versions := remote.javaVersions(JavaApi.DefaultUrl);
    if versions.Err? {
      return Failed(versions.error);
    }
    var runtime := SelectRuntime(versions.value, host, component);
    if runtime.None? {
      return Failed(JavaVersionNotSupported);
    }
    var files := remote.javaFiles(runtime.value.manifest.url);
    if files.Err? {
      return Failed(files.error);
    }
    var entries := files.value.files;
    assert JavaOps(remote, host, jre, component) == RuntimeOps(host, jre, component, entries);
    ghost var d0 := fs.State();
    s := Done;
    ghost var step := RuntimeStep(host, jre, component);
    for i := 0 to |entries|
      invariant s == Done
      invariant Effect(fs.State(), Done) == Run(d0, FlatMap(entries[..i], step), remote.fetch, sha1Hex)
    {
      RunFlatMapStep(d0, entries, i, step, remote.fetch, sha1Hex);
      s := InstallRuntimeFile(fs, host, jre, component, entries[i], remote.fetch, sha1Hex);
      if s != Done {
        RunFlatMapStop(d0, entries, i, step, remote.fetch, sha1Hex);
        return;
      }
    }
    assert entries[..|entries|] == entries;
  }

  /** One iteration of lines 112-162: the native classifier whatever the rules say, then the
      rules, then the artifact. */
  method InstallLibrary(fs: Fs.FileSystem, host: Host, game: Path, lib: Meta.Library,
                        fetch: string -> Result<Bytes, Error>, sha1Hex: Bytes -> string) returns (s: Status)
    modifies fs
    ensures Effect(fs.State(), s) == Run(old(fs.State()), LibraryOps(host, game, lib), fetch, sha1Hex)
  {
    ghost var d0 := fs.State();
    ghost var nativeOps := LibraryDownloadOp(game, NativeDownload(host, lib));
    ghost var artifactOps := LibraryDownloadOp(game, ArtifactDownload(host, lib));
    RunAppend(d0, nativeOps, artifactOps, fetch, sha1Hex);
    if lib.downloads.None? {
      return Done;
    }
    var downloads := lib.downloads.value;
    if downloads.classifiers.Some? {
      var native := HostNative(downloads.classifiers.value, host);
      if native.None? {
        return Done;
      }
      var a := native.value;
      s := EnsureFile(fs, LibraryPath(game, a.path), a.sha1, a.url, false, fetch, sha1Hex);
      if s != Done {
        return;
      }
    }
    assert Run(d0, nativeOps, fetch, sha1Hex) == Effect(fs.State(), Done);
    if lib.rules.Some? {
      var allowed := CheckRules(lib.rules.value, host);
      if !allowed {
        return Done;
      }
    }
    if downloads.artifact.Some? {
      var a := downloads.artifact.value;
      s := EnsureFile(fs, LibraryPath(game, a.path), a.sha1, a.url, false, fetch, sha1Hex);
    } else {
      s := Done;
    }
  }

  /** Lines 112-162. */
  method InstallLibraries(fs: Fs.FileSystem, host: Host, game: Path, libs: seq<Meta.Library>,
                          fetch: string -> Result<Bytes, Error>, sha1Hex: Bytes -> string) returns (s: Status)
    modifies fs
    ensures Effect(fs.State(), s) == Run(old(fs.State()), LibrariesOps(host, game, libs), fetch, sha1Hex)
  {
    ghost var d0 := fs.State();
    s := Done;
    ghost var step := LibraryStep(host, game);
    for i := 0 to |libs|
      invariant s == Done
      invariant Effect(fs.State(), Done) == Run(d0, FlatMap(libs[..i], step), fetch, sha1Hex)
    {
      RunFlatMapStep(d0, libs, i, step, fetch, sha1Hex);
      s := InstallLibrary(fs, host, game, libs[i], fetch, sha1Hex);
      if s != Done {
        RunFlatMapStop(d0, libs, i, step, fetch, sha1Hex);
        return;
      }
    }
    assert libs[..|libs|] == libs;
  }

  /** One entry of the asset loop (lines 163-173): slicing the hash's first two characters
      panics on a shorter hash. */
  method InstallAsset(fs: Fs.FileSystem, game: Path, entry: (string, AssetsApi.Asset),
                      fetch: string -> Result<Bytes, Error>, sha1Hex: Bytes -> string) returns (s: Status)
    modifies fs
    ensures Effect(fs.State(), s) == Run(old(fs.State()), AssetOps(game, entry), fetch, sha1Hex)
  {
    var hash := entry.1.hash;
    if |hash| < 2 {
      RunSingle(fs.State(), Crash, fetch, sha1Hex);
      return Panicked;
    }
    RunSingle(fs.State(), Ensure(AssetObjectPath(game, hash), hash, AssetUrl(hash), false), fetch, sha1Hex);
    s := EnsureFile(fs, AssetObjectPath(game, hash), hash, AssetUrl(hash), false, fetch, sha1Hex);
  }

  /** Lines 163-173; a hash shorter than two characters makes `&asset.hash[0..2]` panic. */
  method InstallAssets(fs: Fs.FileSystem, game: Path, objects: seq<(string, AssetsApi.Asset)>,
                       fetch: string -> Result<Bytes, Error>, sha1Hex: Bytes -> string) returns (s: Status)
    modifies fs
    ensures Effect(fs.State(), s) == Run(old(fs.State()), AssetsOps(game, objects), fetch, sha1Hex)
  {
    ghost var d0 := fs.State();
    s := Done;
    ghost var step := AssetStep(game);
    for i := 0 to |objects|
      invariant s == Done
      invariant Effect(fs.State(), Done) == Run(d0, FlatMap(objects[..i], step), fetch, sha1Hex)
    {
      RunFlatMapStep(d0, objects, i, step, fetch, sha1Hex);
      s := InstallAsset(fs, game, objects[i], fetch, sha1Hex);
      if s != Done {
        RunFlatMapStop(d0, objects, i, step, fetch, sha1Hex);
        return;
      }
    }
    assert objects[..|objects|] == objects;
  }

  /** `download_minecraft_version` (lines 14-175): resolve the version through the manifest,
      fetch and serialise its metadata and asset index, then run the blocks in order, stopping
      at the first error. */
  method DownloadMinecraftVersion(fs: Fs.FileSystem, remote: Remote, codec: Codec, host: Host,
                                  game: Path, jre: Path, name: string) returns (s: Status)
    modifies fs
    ensures Effect(fs.State(), s) == Install(old(fs.State()), remote, codec, host, game, jre, name)
  {
    var manifest := remote.manifest(Manifest.DefaultUrl);
    if manifest.Err? {
      return Failed(manifest.error);
    }
    var stub := Manifest.GetVersion(manifest.value.versions, name);
    if stub.None? {
      return Failed(VersionNotFound);
    }
    var meta := remote.version(stub.value.url);
    if meta.Err? {
      return Failed(meta.error);
    }
    var assets := remote.assets(meta.value.assetIndex.url);
    if assets.Err? {
      return Failed(assets.error);
    }
    var metaJson := codec.encodeVersion(meta.value);
    if metaJson.Err? {
      return Failed(metaJson.error);
    }
    var assetsJson := codec.encodeAssets(assets.value);
    if assetsJson.Err? {
      return Failed(assetsJson.error);
    }
    var r := Resolved(stub.value, meta.value, assets.value, metaJson.value, assetsJson.value);
    assert FetchMetadata(remote, codec, name) == Ok(r);
    ghost var d0 := fs.State();
    InstallRuns(d0, remote, codec, host, game, jre, name, r);
    s := RunInstallSteps(fs, remote, codec.sha1Hex, host, game, jre, r);
  }

  /** Lines 21-173, once the metadata is known. */
  method RunInstallSteps(fs: Fs.FileSystem, remote: Remote, sha1Hex: Bytes -> string, host: Host,
                         game: Path, jre: Path, r: Resolved) returns (s: Status)
    modifies fs
    ensures Effect(fs.State(), s) == Run(old(fs.State()), InstallOps(remote, host, game, jre, r), remote.fetch, sha1Hex)
  {
    var fetch := remote.fetch;
    ghost var d0 := fs.State();
    RunAppend(d0, SetupOps(game, r), DownloadOps(remote, host, game, jre, r), fetch, sha1Hex);
    RunAppend(d0, VersionFileOps(game, r), ProfileOps(game), fetch, sha1Hex);
    s := InstallVersionFiles(fs, game, r, fetch, sha1Hex);
    if s != Done {
      return;
    }
    ghost var d1 := fs.State();
    s := WriteProfileStub(fs, game, fetch, sha1Hex);
    if s != Done {
      return;
    }
    ghost var d2 := fs.State();
    RunAppend(d2, JavaOps(remote, host, jre, r.meta.javaVersion.component), GameFileOps(host, game, r), fetch, sha1Hex);
    s := InstallJavaRuntime(fs, remote, host, jre, r.meta.javaVersion.component, sha1Hex);
    if s != Done {
      return;
    }
    ghost var d3 := fs.State();
    RunAppend(d3, LibrariesOps(host, game, r.meta.libraries), AssetsOps(game, r.assets.objects), fetch, sha1Hex);
    s := InstallLibraries(fs, host, game, r.meta.libraries, fetch, sha1Hex);
    if s != Done {
      return;
    }
    s := InstallAssets(fs, game, r.assets.objects, fetch, sha1Hex);
  }
}
