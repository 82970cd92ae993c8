/** `download_minecraft_version` (crates/smallauncher_lib/src/download.rs:14-175) as a value:
    the metadata it resolves first, the steps it then performs on disk, and what a finished
    installation guarantees. The imperative procedure is in module `Installer`. */
module Download {
  import opened Wrappers
  import opened Errors
  import opened Paths
  import opened Store
  import opened Plan
  import opened Layout
  import opened Rules
  import opened Outside
  import Meta
  import Manifest
  import JavaApi
  import AssetsApi

  /** `RESOURCES_URL`. */
  const ResourcesUrl := "https://resources.download.minecraft.net"

  /** The stub written to `launcher_profiles.json` when that file is missing. */
  const ProfileStub := "{\"profiles\":{}}"

  /** The UTF-8 bytes of `ProfileStub`, as `fs::write` puts them on disk. */
  const ProfileStubBytes: Bytes :=
    [0x7b, 0x22, 0x70, 0x72, 0x6f, 0x66, 0x69, 0x6c, 0x65, 0x73, 0x22, 0x3a, 0x7b, 0x7d, 0x7d]

  /** `ProfileStubBytes` is the stub's text, one ASCII byte per character. */
  lemma ProfileStubEncoding()
    ensures |ProfileStubBytes| == |ProfileStub|
    ensures forall i :: 0 <= i < |ProfileStub| ==> ProfileStubBytes[i] as int == ProfileStub[i] as int
  {
  }

  /** `format!("{RESOURCES_URL}/{prefix_hash}/{hash}")`. */
  function AssetUrl(hash: string): string
    requires |hash| >= 2
  {
    ResourcesUrl + "/" + hash[..2] + "/" + hash
  }

  // ---------------------------------------------------------------- metadata (lines 15-23)

  /** What is known before anything is written: the manifest entry, the version's metadata, its
      asset index, and both serialised with `to_string_pretty`. */
  datatype Resolved = Resolved(stub: Manifest.VersionStub, meta: Meta.Version, assets: AssetsApi.Assets,
                               metaJson: Bytes, assetsJson: Bytes)

  function FetchMetadata(remote: Remote, codec: Codec, name: string): (r: Result<Resolved, Error>)
    ensures r.Ok? ==>
      && remote.manifest(Manifest.DefaultUrl).Ok?
      && Manifest.GetVersion(remote.manifest(Manifest.DefaultUrl).value.versions, name) == Some(r.value.stub)
      && r.value.stub.id == name
      && remote.version(r.value.stub.url) == Ok(r.value.meta)
      && remote.assets(r.value.meta.assetIndex.url) == Ok(r.value.assets)
      && codec.encodeVersion(r.value.meta) == Ok(r.value.metaJson)
      && codec.encodeAssets(r.value.assets) == Ok(r.value.assetsJson)
    ensures remote.manifest(Manifest.DefaultUrl).Err? ==> r == Err(remote.manifest(Manifest.DefaultUrl).error)
    ensures remote.manifest(Manifest.DefaultUrl).Ok? &&
            Manifest.GetVersion(remote.manifest(Manifest.DefaultUrl).value.versions, name).None? ==>
              r == Err(VersionNotFound)
  {
    var manifest :- remote.manifest(Manifest.DefaultUrl);
    match Manifest.GetVersion(manifest.versions, name)
    case None => Err(VersionNotFound)
    case Some(stub) =>
      var meta :- remote.version(stub.url);
      var assets :- remote.assets(meta.assetIndex.url);
      var metaJson :- codec.encodeVersion(meta);
      var assetsJson :- codec.encodeAssets(assets);
      Ok(Resolved(stub, meta, assets, metaJson, assetsJson))
  }

  // ---------------------------------------------------------------- the steps

  /** Lines 25-39: open (truncating) the version JSON and the asset index, download the client
      jar if its digest is wrong, then write both JSON files. */
  function VersionFileOps(game: Path, r: Resolved): seq<Op>
  {
    var client := r.meta.downloads.client;
    [ Create(VersionJsonPath(game, r.stub.id)),
      Create(AssetIndexPath(game, r.meta.assetIndex.id)),
      Ensure(ClientJarPath(game, r.stub.id), client.sha1, client.url, false),
      Write(VersionJsonPath(game, r.stub.id), r.metaJson),
      Write(AssetIndexPath(game, r.meta.assetIndex.id), r.assetsJson) ]
  }

  /** Lines 43-46. */
  function ProfileOps(game: Path): seq<Op>
  {
    [WriteIfAbsent(ProfilePath(game), ProfileStubBytes)]
  }

  /** Lines 52-56: the runtime index of the host's platform. */
  function HostPlatform(v: JavaApi.JavaVersions, host: Host): JavaApi.PlatformVersion
  {
    match host.os
    case TargetLinux => v.linux
    case TargetWindows => v.windowsX64
    case TargetMacOs => v.macOs
  }

  /** Lines 57-69: the first runtime published for the component on the host's platform. */
  function SelectRuntime(v: JavaApi.JavaVersions, host: Host, component: string): (r: Option<JavaApi.Runtime>)
    ensures r.Some? <==> component in JavaApi.Components
                         && |JavaApi.RuntimesFor(HostPlatform(v, host), component).value| > 0
    ensures r.Some? ==> r.value == JavaApi.RuntimesFor(HostPlatform(v, host), component).value[0]
  {
    match JavaApi.RuntimesFor(HostPlatform(v, host), component)
    case None => None
    case Some(list) => if |list| == 0 then None else Some(list[0])
  }

  /** Lines 72-98: a directory is created, a link skipped, a file downloaded (and made executable
      on Unix when the index says so). */
  function RuntimeFileOps(host: Host, jre: Path, component: string, entry: (string, JavaApi.JavaFile)): seq<Op>
  {
    var path := RuntimeFilePath(jre, component, entry.0);
    match entry.1
    case Directory => [MakeDirs(path)]
    case Link(_) => []
    case File(executable, downloads) =>
      [Ensure(path, downloads.raw.sha1, downloads.raw.url, executable && IsUnix(host))]
  }

  function RuntimeOps(host: Host, jre: Path, component: string, entries: seq<(string, JavaApi.JavaFile)>): seq<Op>
  {
    FlatMap(entries, RuntimeStep(host, jre, component))
  }

  function RuntimeStep(host: Host, jre: Path, component: string): ((string, JavaApi.JavaFile)) -> seq<Op>
  {
    e => RuntimeFileOps(host, jre, component, e)
  }

  /** Lines 49-101: fetch the runtime index, pick the runtime, fetch its file list, install it. */
  function JavaOps(remote: Remote, host: Host, jre: Path, component: string): seq<Op>
  {
    match remote.javaVersions(JavaApi.DefaultUrl)
    case Err(e) => [Abort(e)]
    case Ok(v) =>
      match SelectRuntime(v, host, component)
      case None => [Abort(JavaVersionNotSupported)]
      case Some(runtime) =>
        match remote.javaFiles(runtime.manifest.url)
        case Err(e) => [Abort(e)]
        case Ok(files) => RuntimeOps(host, jre, component, files.files)
  }

  /** Lines 117-139: the native classifier downloaded for a library. It is downloaded whatever
      the library's rules say. */
  function NativeDownload(host: Host, lib: Meta.Library): (a: Option<Meta.Artifact>)
    ensures a.Some? <==> lib.downloads.Some? && lib.downloads.value.classifiers.Some?
                         && HostNative(lib.downloads.value.classifiers.value, host).Some?
    ensures a.Some? ==> a == HostNative(lib.downloads.value.classifiers.value, host)
  {
    match lib.downloads
    case None => None
    case Some(dl) => if dl.classifiers.None? then None else HostNative(dl.classifiers.value, host)
  }

  /** Lines 113-122, 141-161: the artifact downloaded for a library. A library that has
      classifiers but none for the host is skipped entirely, artifact included; otherwise the
      artifact is downloaded when the rules allow it. */
  function ArtifactDownload(host: Host, lib: Meta.Library): (a: Option<Meta.Artifact>)
    ensures a.Some? <==>
      && lib.downloads.Some? && lib.downloads.value.artifact.Some?
      && (lib.downloads.value.classifiers.Some? ==> HostNative(lib.downloads.value.classifiers.value, host).Some?)
      && AllowsOpt(lib.rules, host)
    ensures a.Some? ==> a == lib.downloads.value.artifact
  {
    match lib.downloads
    case None => None
    case Some(dl) =>
      if dl.classifiers.Some? && HostNative(dl.classifiers.value, host).None? then None
      else if !AllowsOpt(lib.rules, host) then None
      else dl.artifact
  }

  function LibraryDownloadOp(game: Path, a: Option<Meta.Artifact>): seq<Op>
  {
    match a
    case None => []
    case Some(artifact) => [Ensure(LibraryPath(game, artifact.path), artifact.sha1, artifact.url, false)]
  }

  /** One iteration of the loop of lines 112-162: the native first, then the artifact. */
  function LibraryOps(host: Host, game: Path, lib: Meta.Library): seq<Op>
  {
    LibraryDownloadOp(game, NativeDownload(host, lib)) + LibraryDownloadOp(game, ArtifactDownload(host, lib))
  }

  function LibrariesOps(host: Host, game: Path, libs: seq<Meta.Library>): seq<Op>
  {
    FlatMap(libs, LibraryStep(host, game))
  }

  function LibraryStep(host: Host, game: Path): Meta.Library -> seq<Op>
  {
    lib => LibraryOps(host, game, lib)
  }

  /** One iteration of lines 163-173; slicing a hash shorter than two characters panics. */
  function AssetOps(game: Path, entry: (string, AssetsApi.Asset)): seq<Op>
  {
    var hash := entry.1.hash;
    if |hash| < 2 then [Crash]
    else [Ensure(AssetObjectPath(game, hash), hash, AssetUrl(hash), false)]
  }

  function AssetsOps(game: Path, objects: seq<(string, AssetsApi.Asset)>): seq<Op>
  {
    FlatMap(objects, AssetStep(game))
  }

  function AssetStep(game: Path): ((string, AssetsApi.Asset)) -> seq<Op>
  {
    entry => AssetOps(game, entry)
  }

  /** The downloads after the profile stub: runtime, libraries, assets. */
  function DownloadOps(remote: Remote, host: Host, game: Path, jre: Path, r: Resolved): seq<Op>
  {
    JavaOps(remote, host, jre, r.meta.javaVersion.component) + GameFileOps(host, game, r)
  }

  /** Lines 112-173: the libraries, then the assets. */
  function GameFileOps(host: Host, game: Path, r: Resolved): seq<Op>
  {
    LibrariesOps(host, game, r.meta.libraries) + AssetsOps(game, r.assets.objects)
  }

  /** Lines 21-47: the version files, then the profile stub. */
  function SetupOps(game: Path, r: Resolved): seq<Op>
  {
    VersionFileOps(game, r) + ProfileOps(game)
  }

  /** Every step of the installation, in order. A failure while resolving the runtime is an
      `Abort` step, which ends the run before the libraries. */
  function InstallOps(remote: Remote, host: Host, game: Path, jre: Path, r: Resolved): seq<Op>
  {
    SetupOps(game, r) + DownloadOps(remote, host, game, jre, r)
  }

  /** The whole installation: resolve the metadata (nothing is written when that fails), then
      run the steps. */
  function Install(d: Disk, remote: Remote, codec: Codec, host: Host, game: Path, jre: Path, name: string): Effect
  {
    match FetchMetadata(remote, codec, name)
    case Err(e) => Effect(d, Failed(e))
    case Ok(r) => Run(d, InstallOps(remote, host, game, jre, r), remote.fetch, codec.sha1Hex)
  }

  // ---------------------------------------------------------------- what the installation guarantees

  lemma InstallRuns(d: Disk, remote: Remote, codec: Codec, host: Host, game: Path, jre: Path, name: string, r: Resolved)
    requires FetchMetadata(remote, codec, name) == Ok(r)
    ensures Install(d, remote, codec, host, game, jre, name) == Run(d, InstallOps(remote, host, game, jre, r), remote.fetch, codec.sha1Hex)
  {
  }

  lemma {:induction false} FlatMapOnlyDownloads<T>(xs: seq<T>, f: T -> seq<Op>)
    requires forall x :: x in xs ==> OnlyDownloads(f(x))
    ensures OnlyDownloads(FlatMap(xs, f))
    decreases |xs|
  {
    if xs != [] {
      assert forall x :: x in xs[..|xs| - 1] ==> x in xs;
      FlatMapOnlyDownloads(xs[..|xs| - 1], f);
      OnlyDownloadsAppend(FlatMap(xs[..|xs| - 1], f), f(xs[|xs| - 1]));
    }
  }

  lemma RuntimeOpsOnlyDownload(host: Host, jre: Path, component: string, entries: seq<(string, JavaApi.JavaFile)>)
    ensures OnlyDownloads(RuntimeOps(host, jre, component, entries))
  {
    FlatMapOnlyDownloads(entries, RuntimeStep(host, jre, component));
  }

  /** A runtime file that had to be downloaded is marked executable exactly when the file list
      says `executable` and the host is Unix (lines 76-88); no other file's mode changes, and a
      file whose hash already matched keeps its mode. */
  lemma RuntimeFileMode(d: Disk, host: Host, jre: Path, component: string, name: string, executable: bool,
                        downloads: JavaApi.FileDownloads, fetch: string -> Result<Bytes, Error>, sha1Hex: Bytes -> string)
    ensures var path := RuntimeFilePath(jre, component, name);
            var r := Run(d, RuntimeFileOps(host, jre, component, (name, JavaApi.File(executable, downloads))), fetch, sha1Hex);
            r.disk.exec == (if r.status.Done? && !Valid(d, downloads.raw.sha1, path, sha1Hex) && executable && IsUnix(host)
                            then d.exec + {path} else d.exec)
  {
    var path := RuntimeFilePath(jre, component, name);
    var op := Ensure(path, downloads.raw.sha1, downloads.raw.url, executable && IsUnix(host));
    RunSingle(d, op, fetch, sha1Hex);
    EnsureFileEffect(d, path, downloads.raw.sha1, downloads.raw.url, executable && IsUnix(host), fetch, sha1Hex,
                     Step(d, op, fetch, sha1Hex));
  }

  lemma LibrariesOpsOnlyDownload(host: Host, game: Path, libs: seq<Meta.Library>)
    ensures OnlyDownloads(LibrariesOps(host, game, libs))
  {
    FlatMapOnlyDownloads(libs, LibraryStep(host, game));
  }

  lemma AssetsOpsOnlyDownload(game: Path, objects: seq<(string, AssetsApi.Asset)>)
    ensures OnlyDownloads(AssetsOps(game, objects))
  {
    FlatMapOnlyDownloads(objects, AssetStep(game));
  }

  lemma JavaOpsOnlyDownload(remote: Remote, host: Host, jre: Path, component: string)
    ensures OnlyDownloads(JavaOps(remote, host, jre, component))
  {
    match remote.javaVersions(JavaApi.DefaultUrl)
    case Err(_) =>
    case Ok(v) =>
      match SelectRuntime(v, host, component)
      case None =>
      case Some(runtime) =>
        match remote.javaFiles(runtime.manifest.url)
        case Err(_) =>
        case Ok(files) => RuntimeOpsOnlyDownload(host, jre, component, files.files);
  }

  /** Everything after the profile stub only downloads, creates directories or stops. */
  lemma DownloadOpsOnlyDownload(remote: Remote, host: Host, game: Path, jre: Path, r: Resolved)
    ensures OnlyDownloads(DownloadOps(remote, host, game, jre, r))
  {
    JavaOpsOnlyDownload(remote, host, jre, r.meta.javaVersion.component);
    LibrariesOpsOnlyDownload(host, game, r.meta.libraries);
    AssetsOpsOnlyDownload(game, r.assets.objects);
    OnlyDownloadsAppend(LibrariesOps(host, game, r.meta.libraries), AssetsOps(game, r.assets.objects));
    OnlyDownloadsAppend(JavaOps(remote, host, jre, r.meta.javaVersion.component), GameFileOps(host, game, r));
  }

  /** The six setup steps: none of them truncates or overwrites the client jar once it has been
      downloaded. */
  lemma SetupOpsSettled(game: Path, r: Resolved)
    ensures |SetupOps(game, r)| == 6
    ensures Settled(SetupOps(game, r))
  {
    var json, index, jar := VersionJsonPath(game, r.stub.id), AssetIndexPath(game, r.meta.assetIndex.id), ClientJarPath(game, r.stub.id);
    var client := r.meta.downloads.client;
    var ops := SetupOps(game, r);
    assert ops == [Create(json), Create(index), Ensure(jar, client.sha1, client.url, false),
                   Write(json, r.metaJson), Write(index, r.assetsJson), WriteIfAbsent(ProfilePath(game), ProfileStubBytes)];
    JarIsNotJson(game, r.stub.id, r.meta.assetIndex.id);
    forall i, j | 0 <= i < j < 6 ensures Preserves(ops[j], ops[i]) {
      if i == 2 {
        assert j == 3 || j == 4 || j == 5;
      }
    }
  }

  /** No step of an installation undoes an earlier one, provided the metadata never asks for
      two different digests at one path. */
  lemma InstallOpsSettled(remote: Remote, host: Host, game: Path, jre: Path, r: Resolved)
    requires DigestsAgree(InstallOps(remote, host, game, jre, r))
    ensures Settled(InstallOps(remote, host, game, jre, r))
  {
    var ops := InstallOps(remote, host, game, jre, r);
    var head := SetupOps(game, r);
    var tail := DownloadOps(remote, host, game, jre, r);
    SetupOpsSettled(game, r);
    DownloadOpsOnlyDownload(remote, host, game, jre, r);
    forall j | 6 <= j < |ops| ensures !ops[j].Create? && !ops[j].Write? {
      assert ops[j] == tail[j - 6];
    }
    forall i, j | 0 <= i < j < 6 ensures Preserves(ops[j], ops[i]) {
      assert ops[j] == head[j] && ops[i] == head[i];
    }
    SettledWhenDigestsAgree(ops, 6);
  }

  /** After an installation that ends `Done`, against a server that sends what the metadata
      promises, the client jar and every runtime file, library and asset the installation was to
      download is on disk with its expected SHA-1. */
  lemma InstallDownloadsValid(d: Disk, remote: Remote, codec: Codec, host: Host, game: Path, jre: Path,
                              name: string, r: Resolved, i: nat)
    requires FetchMetadata(remote, codec, name) == Ok(r)
    requires Install(d, remote, codec, host, game, jre, name).status.Done?
    requires Consistent(InstallOps(remote, host, game, jre, r), remote.fetch, codec.sha1Hex)
    requires DigestsAgree(InstallOps(remote, host, game, jre, r))
    requires i < |InstallOps(remote, host, game, jre, r)| && InstallOps(remote, host, game, jre, r)[i].Ensure?
    ensures var op := InstallOps(remote, host, game, jre, r)[i];
            Valid(Install(d, remote, codec, host, game, jre, name).disk, op.sha1, op.path, codec.sha1Hex)
  {
    InstallRuns(d, remote, codec, host, game, jre, name, r);
    InstallOpsSettled(remote, host, game, jre, r);
    RunDownloadsValid(d, InstallOps(remote, host, game, jre, r), remote.fetch, codec.sha1Hex, i);
  }

  /** The third step of every installation downloads the client jar. */
  lemma ClientJarStep(remote: Remote, host: Host, game: Path, jre: Path, r: Resolved)
    ensures |InstallOps(remote, host, game, jre, r)| > 2
    ensures var client := r.meta.downloads.client;
            InstallOps(remote, host, game, jre, r)[2] == Ensure(ClientJarPath(game, r.stub.id), client.sha1, client.url, false)
  {
    assert InstallOps(remote, host, game, jre, r)[2] == SetupOps(game, r)[2];
  }

  /** In particular the client jar is in place with the digest the metadata names. */
  lemma InstallClientJarValid(d: Disk, remote: Remote, codec: Codec, host: Host, game: Path, jre: Path,
                              name: string, r: Resolved)
    requires FetchMetadata(remote, codec, name) == Ok(r)
    requires Install(d, remote, codec, host, game, jre, name).status.Done?
    requires Consistent(InstallOps(remote, host, game, jre, r), remote.fetch, codec.sha1Hex)
    requires DigestsAgree(InstallOps(remote, host, game, jre, r))
    ensures Valid(Install(d, remote, codec, host, game, jre, name).disk, r.meta.downloads.client.sha1,
                  ClientJarPath(game, name), codec.sha1Hex)
  {
    ClientJarStep(remote, host, game, jre, r);
    InstallDownloadsValid(d, remote, codec, host, game, jre, name, r, 2);
  }

  /** Installing is the version files and the profile stub, then, if those finished, the
      downloads. */
  lemma InstallThroughSetup(d: Disk, remote: Remote, codec: Codec, host: Host, game: Path, jre: Path,
                            name: string, r: Resolved)
    requires FetchMetadata(remote, codec, name) == Ok(r)
    ensures var mid := Run(d, SetupOps(game, r), remote.fetch, codec.sha1Hex);
            Install(d, remote, codec, host, game, jre, name) ==
              if mid.status.Done? then Run(mid.disk, DownloadOps(remote, host, game, jre, r), remote.fetch, codec.sha1Hex)
              else mid
  {
    InstallRuns(d, remote, codec, host, game, jre, name, r);
    RunAppend(d, SetupOps(game, r), DownloadOps(remote, host, game, jre, r), remote.fetch, codec.sha1Hex);
  }

  /** Running the downloads of a finished installation a second time changes nothing and
      fetches nothing: every file is already in place, whatever the network answers now. */
  lemma InstallRerunDownloadsNothing(d: Disk, remote: Remote, codec: Codec, host: Host, game: Path, jre: Path,
                                     name: string, r: Resolved, fetch': string -> Result<Bytes, Error>)
    requires FetchMetadata(remote, codec, name) == Ok(r)
    requires Install(d, remote, codec, host, game, jre, name).status.Done?
    requires Consistent(InstallOps(remote, host, game, jre, r), remote.fetch, codec.sha1Hex)
    requires DigestsAgree(InstallOps(remote, host, game, jre, r))
    ensures var d' := Install(d, remote, codec, host, game, jre, name).disk;
            Run(d', DownloadOps(remote, host, game, jre, r), fetch', codec.sha1Hex) == Effect(d', Done)
  {
    var head := SetupOps(game, r);
    var tail := DownloadOps(remote, host, game, jre, r);
    var fetch, sha1Hex := remote.fetch, codec.sha1Hex;
    InstallThroughSetup(d, remote, codec, host, game, jre, name, r);
    var mid := Run(d, head, fetch, sha1Hex);
    RunDoneHasNoStop(mid.disk, tail, fetch, sha1Hex);
    DownloadOpsOnlyDownload(remote, host, game, jre, r);
    ConsistentParts(head, tail, fetch, sha1Hex);
    DigestsAgreeParts(head, tail);
    SettledWhenDigestsAgree(tail, 0);
    RerunIsNoop(mid.disk, tail, fetch, fetch', sha1Hex);
  }

  /** When the runtime cannot be resolved (index unreachable, unknown component, no runtime
      for the platform, file list unreachable) the installation stops with that error after the
      version files and the profile stub, before any runtime file, library or asset. */
  lemma JavaFailureStopsInstall(d: Disk, remote: Remote, codec: Codec, host: Host, game: Path, jre: Path,
                                name: string, r: Resolved, e: Error)
    requires FetchMetadata(remote, codec, name) == Ok(r)
    requires JavaOps(remote, host, jre, r.meta.javaVersion.component) == [Abort(e)]
    ensures var before := Run(d, SetupOps(game, r), remote.fetch, codec.sha1Hex);
            Install(d, remote, codec, host, game, jre, name) ==
              if before.status.Done? then Effect(before.disk, Failed(e)) else before
  {
    InstallRuns(d, remote, codec, host, game, jre, name, r);
    RunStopsAtAbort(d, SetupOps(game, r), e, GameFileOps(host, game, r), remote.fetch, codec.sha1Hex);
  }

  /** An unknown Java component is reported as `JavaVersionNotSupported`, and so is a known one
      for which the host's platform publishes no runtime. */
  lemma UnsupportedComponent(remote: Remote, host: Host, jre: Path, component: string, v: JavaApi.JavaVersions)
    requires remote.javaVersions(JavaApi.DefaultUrl) == Ok(v)
    requires component !in JavaApi.Components || |JavaApi.RuntimesFor(HostPlatform(v, host), component).value| == 0
    ensures JavaOps(remote, host, jre, component) == [Abort(JavaVersionNotSupported)]
  {
  }

  /** Nothing is written when the version is not in the manifest. */
  lemma VersionNotFoundWritesNothing(d: Disk, remote: Remote, codec: Codec, host: Host, game: Path, jre: Path, name: string)
    requires remote.manifest(Manifest.DefaultUrl).Ok?
    requires forall v :: v in remote.manifest(Manifest.DefaultUrl).value.versions ==> v.id != name
    ensures Install(d, remote, codec, host, game, jre, name) == Effect(d, Failed(VersionNotFound))
  {
    var versions := remote.manifest(Manifest.DefaultUrl).value.versions;
    assert FetchMetadata(remote, codec, name) == Err(VersionNotFound) by {
      assert forall i :: 0 <= i < |versions| ==> versions[i] in versions;
    }
  }
}
