# smallauncher — a Dafny model of the install-and-launch core

smallauncher is a command-line Minecraft launcher written in Rust. Given a version name, it
does the following:

- It looks the name up in Mojang's version manifest.
- It downloads only the files that are missing or whose SHA-1 differs from the published one:
  - the client jar;
  - the Java runtime for the version's Java component;
  - the libraries and their per-OS native jars;
  - the asset objects.
- It writes the version metadata and the asset index next to those files.

To launch an installed version, it proceeds in four steps:

1. It loads the version's JSON file and merges it over the file of the version it
   `inheritsFrom`.
2. It extracts the native libraries into `bin`.
3. It builds the JVM arguments, including the classpath, and the game arguments.
4. It spawns `<jre>/<component>/bin/java`.

Offline accounts get a version-3 UUID derived from the MD5 of `OfflinePlayer:<name>`.

The model covers the following parts of the repository:

- `launch.rs`: the JSON merge, the version resolution, native extraction, argument and classpath
  synthesis, the integrity check and the launch command.
- `download.rs`: the whole installer.
- `file.rs`: the file primitives and the `path!`/`osStr!` builders.
- `api/meta.rs`: the metadata datatypes, their defaults and their wire names.
- `api/manifest.rs`: the manifest lookups.
- `auth/offline.rs`: the offline UUID.

How the model is built:

- **Host.** The compile-time `cfg` constants become a `Rules.Host` parameter. It holds the
  target OS (Linux, Windows or macOS) and the optional `x86` architecture. The classpath
  separator, the path separator and the name of the `java` binary are derived from it.
- **Disk.** The filesystem is a value, `Store.Disk`. It holds a map from paths to file contents,
  a set of directories, and a set of files with mode 0755.
- **Paths.** A path is a sequence of segments. `path!` appends segments in order.
- **Mutable filesystem.** The class `Fs.FileSystem` holds a `Disk`. Each of its methods
  (`create_dir_all`, `File::create`, `create_or_open_file`, `write`, `fs::write`,
  `set_permissions`, `file_hash`) is proved to have exactly the effect of the matching function
  of `Store`.
- **Outside world.** The network is a `Outside.Remote` record of functions from URL to
  document. SHA-1 hex encoding, JSON text parsing and printing, and zip decoding are an
  `Outside.Codec` record. MD5 is a function parameter.
- **Installer.** The installer's work is a plan: a sequence of `Plan.Op` steps that create
  directories, create or truncate files, write data, run a hash-gated download, stop with an
  error, or panic. `Plan.Run` gives the plan's meaning on a `Disk`. `Download.InstallOps` is
  the plan `download_minecraft_version` follows once the metadata is fetched.
  `Installer.DownloadMinecraftVersion` performs the same steps in place on a `FileSystem`,
  with one loop per Rust loop. It is proved to end in the state and status that `Plan.Run`
  predicts.
- **Launch.** `Launch.LaunchMinecraftVersion`, `Natives.ExtractNatives`,
  `Classpath.GetClassPaths`, `Args.GenerateGameArgs`, `Args.GenerateJvmArgs` and
  `Auth.OfflineUuid` are imperative. Each is proved against a specification function, and the
  lemmas state what the source promises about that function.
- **Panics.** A panic is a `Status` or an `Outcome` of its own. The only panic is slicing the
  first two characters of a shorter asset hash.

The model follows the code as written, including these behaviours:

- **macOS rules.** The rule patterns name a constant `OS_NAME` that only exists on Linux and
  Windows. On macOS the pattern `name: OS_NAME` therefore binds a fresh variable, so a rule's
  `os.name` matches any value and only `arch` is compared (`Rules.MacOsIgnoresName`). On Linux
  and Windows the rule's `os` must equal the host's exactly, so an absent `arch` is not a
  wildcard on x86 (`Rules.AbsentArchIsNotWildcard`).
- **Natives and rules.** Native extraction does not look at a library's rules
  (`Natives.ExtractIgnoresRules`).
- **Entry names.** An extracted entry is written at `bin` joined with its raw name, after
  only the suffix test. The name is not flattened to its last component and not checked for
  `..` or a leading `/` (see "## Findings").
- **Natives before rules.** The installer downloads a library's host native before, and
  regardless of, the library's rules.
- **Missing host native.** A library whose classifiers lack the host's native is skipped
  entirely, its artifact included.
- **Rule-gated arguments.** Rule-gated (`Object`) arguments are dropped from both argument
  lists.
- **Maven libraries.** A library without an artifact contributes a Maven-derived path and is
  never rule-filtered.
- **Integrity check and inheritance.** `check_version_integrity` decodes the version file as
  it is, without merging the parent named in `inheritsFrom`.

## Model

| member | source | states |
|---|---|---|
| Store.CreateDirAll | crates/smallauncher_lib/src/download.rs:74 | `create_dir_all` succeeds iff no prefix of the path is a file; it then makes every prefix a directory and changes no file; on failure nothing changes |
| Store.CreateOrOpenFile | crates/smallauncher_lib/src/file.rs:5-11 | succeeds iff the path is non-empty, is not a directory and no ancestor is a file; then every ancestor is a directory and the file exists truncated to empty, other files unchanged; a failure is `Io` and leaves every file as it was |
| Store.CreateOrOpenFileAncestors | crates/smallauncher_lib/src/file.rs:7-10 | after a successful `create_or_open_file`, each proper prefix of the path is a directory and the file is empty |
| Store.CreateFile | crates/smallauncher_lib/src/file.rs:10 | `File::create` on success truncates exactly that file; failure changes nothing |
| Store.Write | crates/smallauncher_lib/src/download.rs:38-39 | writing to an open file replaces exactly its contents; a file that is not there is an `Io` failure with no change |
| Store.WriteNew | crates/smallauncher_lib/src/download.rs:45 | `fs::write` on success sets exactly that file's contents; failure changes nothing |
| Store.FileHash | crates/smallauncher_lib/src/file.rs:13-20 | `Err(Io)` iff the file is missing; `Ok(true)` iff it exists and the hex SHA-1 of its contents equals the expected string exactly |
| Store.CreateDirAllTree | crates/smallauncher_lib/src/download.rs:74 | keeps the tree invariant: every parent of a file or directory is a directory, and no path is both |
| Store.CreateOrOpenFileTree | crates/smallauncher_lib/src/file.rs:5-11 | `create_or_open_file` keeps the tree invariant |
| Store.WriteTree | crates/smallauncher_lib/src/download.rs:38-39 | writing keeps the tree invariant |
| Store.WriteNewTree | crates/smallauncher_lib/src/download.rs:45 | `fs::write` keeps the tree invariant |
| Store.SetMode755 | crates/smallauncher_lib/src/download.rs:84-87 | `set_permissions(0o755)`: the file joins the executable set and nothing else changes; used by `Plan.EnsureFileEffect` and `Download.RuntimeFileMode` |
| Fs.FileSystem.CreateDirAll | crates/smallauncher_lib/src/download.rs:74 | the in-place operation has exactly the effect and status of `Store.CreateDirAll` |
| Fs.FileSystem.CreateFile | crates/smallauncher_lib/src/file.rs:10 | the in-place operation has exactly the effect and status of `Store.CreateFile` |
| Fs.FileSystem.CreateOrOpenFile | crates/smallauncher_lib/src/file.rs:5-11 | parent directories first, then the truncated file, with exactly the effect of `Store.CreateOrOpenFile` |
| Fs.FileSystem.Write | crates/smallauncher_lib/src/download.rs:38-39 | in place, exactly `Store.Write` |
| Fs.FileSystem.WriteNew | crates/smallauncher_lib/src/download.rs:45 | in place, exactly `Store.WriteNew` |
| Fs.FileSystem.SetMode755 | crates/smallauncher_lib/src/download.rs:84-87 | marks exactly that file executable |
| Fs.FileSystem.FileHash | crates/smallauncher_lib/src/file.rs:13-20 | reads the state only and returns `Store.FileHash` of it |
| Paths.BuildPath | crates/smallauncher_lib/src/file.rs:28-41 | `path!` pushes the segments left to right: the result is their concatenation, and `path!()` is empty |
| Paths.FlattenAppend | crates/smallauncher_lib/src/file.rs:32-40 | building a path from two runs of segments is appending the two paths |
| Paths.BuildOsStr | crates/smallauncher_lib/src/file.rs:44-56 | `osStr!` is plain concatenation with no separator, and `osStr!()` is empty |
| Paths.ConcatAppend | crates/smallauncher_lib/src/file.rs:48-55 | concatenation distributes over appending runs of pieces |
| Paths.RenderAppend | crates/smallauncher_lib/src/launch.rs:149 | a path displayed as text: two non-empty paths appended display as the two texts joined by one separator |
| Plan.EnsureFileEffect | crates/smallauncher_lib/src/download.rs:32-36 | a hash-gated download: a file whose hash already matches is left untouched; otherwise a successful step leaves exactly the fetched bytes at the path and no other file changed; the file is marked executable (the `set_permissions` call of download.rs lines 84-87) exactly when it was downloaded with the 0755 flag, and no other file's mode changes; failures are `Io` or the fetch's error; it never panics |
| Plan.RunAppend | crates/smallauncher_lib/src/download.rs:14-175 | running two plans in sequence is running the second on the result of the first, unless the first stopped |
| Plan.StepTree | crates/smallauncher_lib/src/download.rs:14-175 | every installer step keeps the tree invariant |
| Plan.RunTree | crates/smallauncher_lib/src/download.rs:14-175 | a whole plan keeps the tree invariant |
| Plan.StepMakesReady | crates/smallauncher_lib/src/download.rs:32-36 | after a successful step whose download matches its digest, the step's target is in place (directory exists, file exists, download's hash matches) |
| Plan.StepPreservesReady | crates/smallauncher_lib/src/download.rs:14-175 | a step that does not touch another step's target keeps that target in place |
| Plan.RunMakesReady | crates/smallauncher_lib/src/download.rs:14-175 | after a plan finishes, every one of its steps has its target in place, given consistent digests and no later step undoing an earlier one |
| Plan.RunPreservesReady | crates/smallauncher_lib/src/download.rs:14-175 | a target no step of a plan touches stays in place |
| Plan.RunDownloadsValid | crates/smallauncher_lib/src/download.rs:32-36 | after a finished install, every hash-gated file has the expected SHA-1 |
| Plan.ReadyRunIsNoop | crates/smallauncher_lib/src/download.rs:32-36 | a plan of hash-gated downloads and directory creations whose targets are all in place changes nothing and fetches nothing |
| Plan.RerunIsNoop | crates/smallauncher_lib/src/download.rs:163-173 | re-running a finished plan of downloads is a no-op, whatever the network now answers |
| Plan.RunDoneHasNoStop | crates/smallauncher_lib/src/download.rs:14-175 | a plan that finishes contained no error exit and no panic |
| Plan.RunStopsAtAbort | crates/smallauncher_lib/src/download.rs:65-68 | an early `return Err` stops the install with that error, keeping what the earlier steps did |
| Plan.SettledWhenDigestsAgree | crates/smallauncher_lib/src/download.rs:14-175 | when downloads of the same path agree on the digest, a plan whose later part only downloads and whose earlier part is not undone is settled |
| Plan.ConsistentParts | crates/smallauncher_lib/src/download.rs:14-175 | digest consistency of a plan holds for its parts |
| Plan.DigestsAgreeParts | crates/smallauncher_lib/src/download.rs:14-175 | digest agreement of a plan holds for its parts |
| Plan.OnlyDownloadsAppend | crates/smallauncher_lib/src/download.rs:14-175 | two plans of downloads only append to one |
| Plan.FlatMapAppend | crates/smallauncher_lib/src/download.rs:112-173 | the plan of a loop over two runs of items is the two loops' plans in order |
| Plan.RunFlatMapStep | crates/smallauncher_lib/src/download.rs:112-173 | one more loop iteration runs that item's steps on the state the previous iterations left |
| Plan.RunFlatMapStop | crates/smallauncher_lib/src/download.rs:112-173 | a loop iteration that fails ends the whole loop with that result (`?`) |
| Plan.EnsureFile | crates/smallauncher_lib/src/download.rs:32-36 | the hash-gated download (`file_hash`, `create_or_open_file`, `download`, and `set_permissions` when asked); its behaviour is stated by `Plan.EnsureFileEffect` |
| Plan.Step | crates/smallauncher_lib/src/download.rs:14-175 | one installer statement as an effect on the disk; its properties are stated by `Plan.StepTree`, `Plan.StepMakesReady` and `Plan.StepPreservesReady` |
| Plan.Run | crates/smallauncher_lib/src/download.rs:14-175 | the statements in order joined by `?`: the first that does not end `Done` ends the run; stated by `Plan.RunAppend`, `Plan.RunStopsAtAbort`, `Plan.RunDoneHasNoStop` and `Plan.RunMakesReady` |
| Plan.FlatMap | crates/smallauncher_lib/src/download.rs:112-173 | the steps of a `for` loop: each item's steps, items in order; stated by `Plan.FlatMapAppend`, `Plan.RunFlatMapStep` and `Plan.RunFlatMapStop` |
| Manifest.GetVersion | crates/smallauncher_lib/src/api/manifest.rs:13-20 | `None` iff no entry has the id; a returned entry has the id and is in the list |
| Manifest.GetVersionFirst | crates/smallauncher_lib/src/api/manifest.rs:14-17 | the entry returned is the first with that id: no earlier entry has it, so later duplicates are never returned |
| Manifest.GetLatestRelease | crates/smallauncher_lib/src/api/manifest.rs:9-12 | is `get_version(latest.release)`, and a result carries that id |
| Manifest.GetLatestSnapshot | crates/smallauncher_lib/src/api/manifest.rs:5-8 | is `get_version(latest.snapshot)`, and a result carries that id |
| JavaApi.RuntimesFor | crates/smallauncher_lib/src/download.rs:58-66 | a runtime list exists exactly for the six component names |
| Download.FetchMetadata | crates/smallauncher_lib/src/download.rs:15-23 | success means the manifest fetched, the name found (as the first match), the version and asset index fetched from the URLs it names and both re-encoded; a manifest error is returned as is; an absent name is `VersionNotFound` |
| Download.SelectRuntime | crates/smallauncher_lib/src/download.rs:50-69 | a runtime is chosen iff the component is one of the six names and the host platform's list for it is non-empty, and then it is element 0 |
| Download.UnsupportedComponent | crates/smallauncher_lib/src/download.rs:58-69 | any other component name, or an empty list, stops the Java step with `JavaVersionNotSupported` |
| Download.NativeDownload | crates/smallauncher_lib/src/download.rs:117-139 | a native jar is downloaded iff the library has classifiers with the host's native, with no regard to rules |
| Download.ArtifactDownload | crates/smallauncher_lib/src/download.rs:113-161 | the artifact is downloaded iff there is one, the classifiers (if any) have the host's native, and the rules allow the library |
| Download.ProfileStubEncoding | crates/smallauncher_lib/src/download.rs:45 | the bytes written to `launcher_profiles.json` are the ASCII encoding of `{"profiles":{}}` |
| Download.InstallRuns | crates/smallauncher_lib/src/download.rs:14-175 | once the metadata is fetched, installing is running the install plan |
| Download.InstallThroughSetup | crates/smallauncher_lib/src/download.rs:21-173 | installing runs the version files and the profile stub, and the downloads only if those finished |
| Download.RuntimeOpsOnlyDownload | crates/smallauncher_lib/src/download.rs:71-100 | the runtime loop only creates directories and makes hash-gated downloads |
| Download.LibrariesOpsOnlyDownload | crates/smallauncher_lib/src/download.rs:112-162 | the library loop only makes hash-gated downloads |
| Download.AssetsOpsOnlyDownload | crates/smallauncher_lib/src/download.rs:163-173 | the asset loop only makes hash-gated downloads (or panics on a short hash) |
| Download.JavaOpsOnlyDownload | crates/smallauncher_lib/src/download.rs:48-101 | the Java step only downloads, after its possible early error |
| Download.DownloadOpsOnlyDownload | crates/smallauncher_lib/src/download.rs:48-173 | everything after the version files and the profile only downloads |
| Download.FlatMapOnlyDownloads | crates/smallauncher_lib/src/download.rs:112-173 | a loop whose every iteration only downloads only downloads |
| Download.SetupOpsSettled | crates/smallauncher_lib/src/download.rs:21-47 | the version files and the profile stub are six steps, and none undoes another |
| Download.InstallOpsSettled | crates/smallauncher_lib/src/download.rs:14-175 | when equal paths carry equal digests, no later step of the install undoes an earlier one |
| Download.ClientJarStep | crates/smallauncher_lib/src/download.rs:32-36 | the third step of the install is the hash-gated download of `versions/<id>/<id>.jar` from `downloads.client` |
| Download.InstallClientJarValid | crates/smallauncher_lib/src/download.rs:32-36 | after a finished install the client jar's SHA-1 is `downloads.client.sha1` |
| Download.InstallDownloadsValid | crates/smallauncher_lib/src/download.rs:14-175 | after a finished install every downloaded file has its expected SHA-1 |
| Download.InstallRerunDownloadsNothing | crates/smallauncher_lib/src/download.rs:48-173 | running the downloads again after a finished install touches and fetches nothing |
| Download.JavaFailureStopsInstall | crates/smallauncher_lib/src/download.rs:58-69 | an unsupported Java component ends the install with that error right after the version files and the profile |
| Download.VersionNotFoundWritesNothing | crates/smallauncher_lib/src/download.rs:15-18 | a name absent from the manifest gives `VersionNotFound` with the disk unchanged |
| Download.AssetUrl | crates/smallauncher_lib/src/download.rs:167 | `<RESOURCES_URL>/<first two characters of the hash>/<hash>` |
| Download.VersionFileOps | crates/smallauncher_lib/src/download.rs:25-39 | create the version JSON and the asset index, hash-gate the client jar, write both JSON files; stated by `Download.ClientJarStep` and `Download.SetupOpsSettled` |
| Download.ProfileOps | crates/smallauncher_lib/src/download.rs:43-46 | write the profile stub only when the file is absent; stated by `Download.ProfileStubEncoding` and `Installer.WriteProfileStub` |
| Download.HostPlatform | crates/smallauncher_lib/src/download.rs:51-56 | the runtime index of the host's operating system; used by `Download.SelectRuntime` |
| Download.RuntimeFileOps | crates/smallauncher_lib/src/download.rs:71-99 | a directory is created, a link skipped, a file hash-gated with mode 0755 when it is executable and the host is Unix; stated by `Download.RuntimeFileMode` and `Download.RuntimeOpsOnlyDownload` |
| Download.RuntimeFileMode | crates/smallauncher_lib/src/download.rs:76-98 | a downloaded runtime file is marked executable exactly when the file list says `executable` and the host is Unix; a file whose hash already matched, and every other file, keeps its mode |
| Download.JavaOps | crates/smallauncher_lib/src/download.rs:48-101 | a failed fetch or an unsupported component ends the install at once, otherwise the runtime's files are installed; stated by `Download.JavaOpsOnlyDownload`, `Download.UnsupportedComponent` and `Download.JavaFailureStopsInstall` |
| Download.LibraryOps | crates/smallauncher_lib/src/download.rs:112-162 | one library: its host native, then its artifact, as `Download.NativeDownload` and `Download.ArtifactDownload` decide; stated by `Download.LibrariesOpsOnlyDownload` |
| Download.AssetOps | crates/smallauncher_lib/src/download.rs:163-173 | a hash shorter than two characters panics, otherwise the object is hash-gated at `assets/objects/<hash[0..2]>/<hash>`; stated by `Download.AssetsOpsOnlyDownload` and `Installer.InstallAsset` |
| Download.InstallOps | crates/smallauncher_lib/src/download.rs:21-173 | the version files, the profile stub, the runtime, the libraries and the assets, in that order; stated by `Download.InstallOpsSettled` and `Download.DownloadOpsOnlyDownload` |
| Download.Install | crates/smallauncher_lib/src/download.rs:14-175 | the metadata is resolved first and nothing is written when that fails, then the steps run; stated by `Download.InstallRuns`, `Download.VersionNotFoundWritesNothing` and `Download.InstallDownloadsValid` |
| Installer.EnsureFile | crates/smallauncher_lib/src/download.rs:80-88 | the hash-gated download in place (create, fetch, write, optional chmod 0755) has exactly the effect of `Plan.EnsureFile` |
| Installer.InstallVersionFiles | crates/smallauncher_lib/src/download.rs:21-40 | creates the version JSON and asset index files, downloads the client jar if needed, then writes both JSON texts, as `Plan.Run` of those steps |
| Installer.WriteVersionFiles | crates/smallauncher_lib/src/download.rs:32-39 | once both JSON files are open: the client jar hash-gated, then the two JSON files written, in place, as `Run` of the last three version-file steps |
| Installer.WriteProfileStub | crates/smallauncher_lib/src/download.rs:41-47 | writes the profile stub only when the file is absent, as its plan says |
| Installer.InstallRuntimeFile | crates/smallauncher_lib/src/download.rs:71-99 | a `Directory` entry creates the directory, a `Link` does nothing, a `File` is hash-gated under `<jre>/<component>/<path>` and made 0755 only if executable and just downloaded |
| Installer.InstallJavaRuntime | crates/smallauncher_lib/src/download.rs:48-101 | fetch the runtime list, select the component, fetch its file list and install every entry, in place, as `Run` of the Java plan |
| Installer.InstallLibrary | crates/smallauncher_lib/src/download.rs:113-161 | one library: the host native first, then the rules, then the artifact, as its plan says |
| Installer.InstallLibraries | crates/smallauncher_lib/src/download.rs:112-162 | the library loop (with `continue 'l`) in place, as `Run` of the libraries' plan |
| Installer.InstallAsset | crates/smallauncher_lib/src/download.rs:163-173 | one asset: a hash shorter than two characters panics, otherwise the hash-gated download, as `Run` of `AssetOps` |
| Installer.InstallAssets | crates/smallauncher_lib/src/download.rs:163-173 | each asset hash-gated at `assets/objects/<hash[0..2]>/<hash>` from the resources URL, as `Run` of the assets' plan |
| Installer.RunInstallSteps | crates/smallauncher_lib/src/download.rs:21-173 | all the install steps in order end in the state and status `Run(InstallOps)` predicts |
| Installer.DownloadMinecraftVersion | crates/smallauncher_lib/src/download.rs:14-175 | `download_minecraft_version` in place ends in exactly the state and status of `Download.Install` |
| JsonMerge.Merge | crates/smallauncher_lib/src/launch.rs:16-34 | two objects merge to an object with the keys of both, where a key on both sides holds the merge of the two values and a key on one side holds that side's value; two arrays merge to the parent's items followed by the child's; any other pair to the child's value |
| JsonMerge.MergeScalarWins | crates/smallauncher_lib/src/launch.rs:16-34 | a scalar the child holds at any path is the merged value at that path |
| JsonMerge.MergeArraysConcatenate | crates/smallauncher_lib/src/launch.rs:28-31 | arrays at the same path concatenate, parent first |
| JsonMerge.MergeKeepsAbsent | crates/smallauncher_lib/src/launch.rs:18-26 | a key only the parent has keeps the parent's value |
| JsonMerge.MergeEmptyObject | crates/smallauncher_lib/src/launch.rs:18-26 | merging with an empty object on either side changes nothing |
| Resolve.ReadJson | crates/smallauncher_lib/src/file.rs:22-25 | a missing file is `Io`; otherwise the parser's result on the file's bytes |
| Resolve.ReadObject | crates/smallauncher_lib/src/launch.rs:44 | succeeds iff the file parses to an object; read errors pass through |
| Resolve.MergedJson | crates/smallauncher_lib/src/launch.rs:42-55 | a successful resolution is always an object |
| Resolve.ResolveVersion | crates/smallauncher_lib/src/launch.rs:42-55 | a missing version file is `Io` and a file that is not a JSON object is `Serialize`; a resolved version had its own file as an object and, when that names a parent, the parent's file as an object; a version without a parent is decoded from its own object without `inheritsFrom`, no other file read |
| Resolve.MissingVersionFile | crates/smallauncher_lib/src/launch.rs:43-44 | a version whose JSON file is missing resolves to `Io` |
| Resolve.ChildScalarWins | crates/smallauncher_lib/src/launch.rs:45-51 | a scalar setting of the child (other than `inheritsFrom`) survives in the resolved JSON |
| Resolve.LibrariesConcatenate | crates/smallauncher_lib/src/launch.rs:45-51 | the resolved `libraries` are the parent's followed by the child's |
| Resolve.ResolvedLibraries | crates/smallauncher_lib/src/launch.rs:45-51 | the decoded version's libraries are the parent's decoded libraries followed by the child's |
| Resolve.OneLevelOfInheritance | crates/smallauncher_lib/src/launch.rs:45-53 | only one parent level is followed: the file of any other version does not affect the result |
| Rules.CheckRules | crates/smallauncher_lib/src/launch.rs:234-245 | the rule loop with early exit answers exactly `Allows` |
| Rules.AllowsIff | crates/smallauncher_lib/src/launch.rs:234-245 | an item is kept iff every rule's action is `Allow` exactly when the rule matches the host (no matching Disallow, no non-matching Allow); no rules keep it |
| Rules.AllowsOrderIrrelevant | crates/smallauncher_lib/src/download.rs:141-152 | the verdict does not depend on the order of the rules |
| Rules.AbsentArchIsNotWildcard | crates/smallauncher_lib/src/launch.rs:211-212 | on an x86 host an `Allow` rule without `arch` does not match, so the item is excluded |
| Rules.LinuxExamples | crates/smallauncher_lib/src/launch.rs:207-245 | on 64-bit Linux: allow-linux keeps, allow-windows drops, disallow-windows keeps, a bare disallow drops, absent or empty rules keep |
| Rules.MacOsIgnoresName | crates/smallauncher_lib/src/download.rs:103-110 | on macOS a rule's `os.name` is not compared: any name with the host's arch matches |
| Rules.OsMatches | crates/smallauncher_lib/src/launch.rs:207-214 | the pattern `Os { name: OS_NAME, arch: ARCH }`: the arch equals the host's, and the name does too on Linux and Windows; stated by `Rules.MacOsIgnoresName` and `Rules.AbsentArchIsNotWildcard` |
| Rules.RuleMatches | crates/smallauncher_lib/src/launch.rs:236-242 | a rule applies when it has no `os` or its `os` matches; used by `Rules.AllowsIff` |
| Rules.Allows | crates/smallauncher_lib/src/launch.rs:234-245 | the six-arm match over the rules in order; stated by `Rules.AllowsIff`, `Rules.CheckRules` and `Rules.AllowsOrderIrrelevant` |
| Rules.AllowsOpt | crates/smallauncher_lib/src/launch.rs:234 | absent rules allow the library, present ones as `Rules.Allows` |
| Meta.DefaultArgumentsShape | crates/smallauncher_lib/src/api/meta.rs:33-72 | the default game list is 22 plain tokens with `--xuid`/`${auth_xuid}` at 16-17 and ending `--versionType`, `${version_type}`; the JVM list is 8 plain tokens ending `-cp`, `${classpath}` |
| Meta.DefaultJavaVersion | crates/smallauncher_lib/src/api/meta.rs:74-82 | component `jre-legacy`, major version 8 |
| Meta.DecodeVersionLibraries | crates/smallauncher_lib/src/api/meta.rs:14 | a decoded version has a `libraries` array and its libraries are that array decoded item by item |
| Meta.DecodeVersionDefaults | crates/smallauncher_lib/src/api/meta.rs:4-17 | an absent `arguments` or `javaVersion` decodes to the defaults; `id` is the JSON's `id` |
| Meta.DisplayInjective | crates/smallauncher_lib/src/api/meta.rs:84-94 | `Release`/`Snapshot`/`OldBeta`/`OldAlpha` display distinct types distinctly |
| Meta.ParseVersionType | crates/smallauncher_lib/src/api/meta.rs:142-149 | decoding a wire name gives exactly the type whose snake_case name it is |
| Meta.VersionTypeNameRoundTrip | crates/smallauncher_lib/src/api/meta.rs:142-149 | decode(encode(t)) == t for version types |
| Meta.ParseAction | crates/smallauncher_lib/src/api/meta.rs:211-216 | `allow`/`disallow` and nothing else |
| Meta.ParseOsName | crates/smallauncher_lib/src/api/meta.rs:203-209 | `windows`/`osx`/`linux` and nothing else |
| Meta.ParseArch | crates/smallauncher_lib/src/api/meta.rs:197-201 | `x86` and nothing else |
| Meta.AsString | crates/smallauncher_lib/src/api/meta.rs:96-101 | a string field decodes iff the JSON is a string |
| Meta.ItemsAll | crates/smallauncher_lib/src/api/meta.rs:14 | a list decodes iff every item does, to the items' values in order |
| Meta.ItemsAppend | crates/smallauncher_lib/src/api/meta.rs:14 | decoding a concatenated list is concatenating the decoded lists |
| Meta.EncodeRules | crates/smallauncher_lib/src/api/meta.rs:183-188 | encodes rule by rule, in order |
| Meta.RuleRoundTrip | crates/smallauncher_lib/src/api/meta.rs:183-195 | a rule survives encoding then decoding |
| Meta.RulesRoundTrip | crates/smallauncher_lib/src/api/meta.rs:183-195 | a rule list survives encoding then decoding |
| Meta.TokensRoundTrip | crates/smallauncher_lib/src/api/meta.rs:110-115 | a list of strings survives encoding then decoding |
| Meta.ArgumentRoundTrip | crates/smallauncher_lib/src/api/meta.rs:96-115 | an argument survives encoding then untagged decoding, which tries the string form first |
| Meta.DefaultArguments | crates/smallauncher_lib/src/api/meta.rs:33-72 | the arguments used when `arguments` is absent; stated by `Meta.DefaultArgumentsShape` |
| Meta.Display | crates/smallauncher_lib/src/api/meta.rs:84-94 | `Release`, `Snapshot`, `OldBeta`, `OldAlpha`; stated by `Meta.DisplayInjective` |
| Meta.AsObject | crates/smallauncher_lib/src/api/meta.rs:4-17 | a struct decodes only from a JSON object; anything else is `Serialize` |
| Meta.DecodeOs | crates/smallauncher_lib/src/api/meta.rs:190-195 | both fields optional |
| Meta.DecodeRule | crates/smallauncher_lib/src/api/meta.rs:183-188 | `action` required, `os` optional; stated by `Meta.RuleRoundTrip` |
| Meta.DecodeArgument | crates/smallauncher_lib/src/api/meta.rs:96-115 | untagged: a string first, then an object with `rules` and `value`; stated by `Meta.ArgumentRoundTrip` |
| Meta.DecodeArguments | crates/smallauncher_lib/src/api/meta.rs:26-31 | `game` and `jvm` lists, both required |
| Meta.DecodeAssetIndex | crates/smallauncher_lib/src/api/meta.rs:117-125 | `id`, `sha1`, `size`, `totalSize`, `url`, all required |
| Meta.DecodeDownloads | crates/smallauncher_lib/src/api/meta.rs:127-140 | `client` required, `server` optional |
| Meta.DecodeJavaVersion | crates/smallauncher_lib/src/api/meta.rs:19-24 | `component` and a `u16` `majorVersion` |
| Meta.DecodeArtifact | crates/smallauncher_lib/src/api/meta.rs:175-181 | `url`, `path`, `sha1`, all required |
| Meta.DecodeClassifiers | crates/smallauncher_lib/src/api/meta.rs:167-173 | the three kebab-case native classifiers, each optional |
| Meta.DecodeLibraryDownload | crates/smallauncher_lib/src/api/meta.rs:160-165 | `artifact` and `classifiers`, each optional |
| Meta.DecodeLibrary | crates/smallauncher_lib/src/api/meta.rs:151-158 | `name` required; `downloads`, `natives`, `rules` optional |
| Meta.DecodeVersion | crates/smallauncher_lib/src/api/meta.rs:4-17 | the version struct with its two `serde(default)` fields; stated by `Meta.DecodeVersionDefaults` and `Meta.DecodeVersionLibraries` |
| Layout.JarIsNotJson | crates/smallauncher_lib/src/download.rs:25-27 | the client jar is never the version JSON or the asset index, so the install steps do not overwrite one another |
| Layout.ClientJarPath | crates/smallauncher_lib/src/download.rs:25 | `<game>/versions/<id>/<id>.jar`; stated by `Layout.JarIsNotJson` |
| Layout.VersionJsonPath | crates/smallauncher_lib/src/download.rs:26 | `<game>/versions/<id>/<id>.json` |
| Layout.AssetIndexPath | crates/smallauncher_lib/src/download.rs:27 | `<game>/assets/indexes/<index id>.json` |
| Layout.AssetObjectPath | crates/smallauncher_lib/src/download.rs:166 | `<game>/assets/objects/<hash[0..2]>/<hash>` |
| Layout.ProfilePath | crates/smallauncher_lib/src/download.rs:43 | `<game>/launcher_profiles.json` |
| Layout.LibraryPath | crates/smallauncher_lib/src/download.rs:133 | `<game>/libraries/<path>` |
| Layout.NativesDir | crates/smallauncher_lib/src/launch.rs:168 | `<game>/bin` |
| Layout.RuntimeFilePath | crates/smallauncher_lib/src/download.rs:72 | `<jre>/<component>/<path>` |
| Natives.NativeJar | crates/smallauncher_lib/src/launch.rs:79-99 | a library has a native jar iff it has classifiers with the host's native |
| Natives.ExtractEntry | crates/smallauncher_lib/src/launch.rs:105-113 | an entry not ending in `.so`/`.dll`/`.dylib` is skipped; a native one ends with its bytes at `bin/<entry name>`; no other file changes |
| Natives.ExtractJar | crates/smallauncher_lib/src/launch.rs:104-114 | the entry loop in place has exactly the effect of `ExtractEntries` |
| Natives.ExtractNatives | crates/smallauncher_lib/src/launch.rs:77-117 | `extract_natives` in place has exactly the effect and status of `ExtractAll`: a missing jar is `Io`, an unreadable archive `Zip` |
| Natives.ExtractEntriesFrame | crates/smallauncher_lib/src/launch.rs:104-114 | a file no native entry names is untouched by extracting a jar |
| Natives.ExtractEntriesWritten | crates/smallauncher_lib/src/launch.rs:104-114 | after extraction `bin/<name>` holds the bytes of the last native entry with that name |
| Natives.ExtractIgnoresRules | crates/smallauncher_lib/src/launch.rs:78-99 | extraction depends on the libraries' downloads only: changing rules changes nothing |
| Natives.ExtractLibraryFrame | crates/smallauncher_lib/src/launch.rs:101-114 | one library's extraction writes only paths `bin` + [entry name], the entry name taken as one opaque path segment; every other file is as it was |
| Natives.ExtractAllFrame | crates/smallauncher_lib/src/launch.rs:77-117 | `extract_natives` writes only paths `bin` + [entry name], the entry name taken as one opaque path segment, even when it fails part way |
| Natives.ExtractEntries | crates/smallauncher_lib/src/launch.rs:104-114 | the entry loop, stopped by the first failure; stated by `Natives.ExtractEntriesFrame` and `Natives.ExtractEntriesWritten` |
| Natives.ExtractLibrary | crates/smallauncher_lib/src/launch.rs:78-114 | one library: no host native skips it, a missing jar is `Io`, an undecodable one `Zip`; stated by `Natives.ExtractLibraryFrame` |
| Natives.ExtractAll | crates/smallauncher_lib/src/launch.rs:77-117 | the library loop, stopped by the first failure; stated by `Natives.ExtractAllFrame` and `Natives.ExtractIgnoresRules` |
| Natives.PlainNameLanding | crates/smallauncher_lib/src/launch.rs:106-110 | an entry name without `/`, other than `.` and `..`, lands at `bin` + [name], directly in `bin`, where the model writes it |
| Natives.ParentEntryEscapes | crates/smallauncher_lib/src/launch.rs:106-110 | as written, a native entry named `../<file>` passes the suffix test and lands at `<game>/<file>`, outside `bin` |
| Natives.AbsoluteEntryEscapes | crates/smallauncher_lib/src/launch.rs:106-110 | as written, a native entry named `/<file>` passes the suffix test and lands at `/<file>`, outside `bin` |
| Natives.EnclosedName | crates/smallauncher_lib/src/launch.rs:106-110 | corrected: rejects exactly the names that are absolute or have a `..` component |
| Natives.CheckedPathStaysInBin | crates/smallauncher_lib/src/launch.rs:106-110 | corrected: every name the check keeps lands below `bin`, at the checked path; plain names keep the path `bin` + [name] |
| Auth.DigestInput | crates/smallauncher_lib/src/auth/offline.rs:2 | the MD5 input is `OfflinePlayer:` followed by the user name |
| Auth.UuidBytes | crates/smallauncher_lib/src/auth/offline.rs:3-4 | byte 6 gets high nibble 3 (version 3, section 4.1.3 of RFC 4122) and keeps its low nibble; byte 8 gets top bits `10` (variant, section 4.1.1 of RFC 4122) and keeps its low six bits; the other 14 bytes are the digest's |
| Auth.UuidBytesIdempotent | crates/smallauncher_lib/src/auth/offline.rs:3-4 | fixing the bits twice is fixing them once |
| Auth.HexDigit | crates/smallauncher_lib/src/auth/offline.rs:6 | a nibble is written as a lowercase hex digit |
| Auth.Hex | crates/smallauncher_lib/src/auth/offline.rs:6 | two digits per byte |
| Auth.HexAppend | crates/smallauncher_lib/src/auth/offline.rs:6 | hex text of concatenated bytes is the concatenated hex texts |
| Auth.HexAt | crates/smallauncher_lib/src/auth/offline.rs:6 | byte i is written at 2i as its high nibble then its low nibble |
| Auth.HexLowercase | crates/smallauncher_lib/src/auth/offline.rs:6 | the text uses only `0-9a-f` |
| Auth.ParseHexDigit | crates/smallauncher_lib/src/auth/offline.rs:6 | reads exactly the lowercase hex digits, inverting `HexDigit` |
| Auth.ParseHexDigitOf | crates/smallauncher_lib/src/auth/offline.rs:6 | reading a written nibble gives it back |
| Auth.ParseHexRoundTrip | crates/smallauncher_lib/src/auth/offline.rs:6 | reading the hex text of bytes gives the bytes back |
| Auth.Hyphenated | crates/smallauncher_lib/src/auth/offline.rs:6 | the UUID text is 36 characters |
| Auth.HyphenatedRoundTrip | crates/smallauncher_lib/src/auth/offline.rs:6 | the 8-4-4-4-12 text of 16 bytes reads back to those bytes, so no two digests give the same text |
| Auth.HyphenatedHeads | crates/smallauncher_lib/src/auth/offline.rs:6 | hyphens at 8, 13, 18 and 23; the high digits of bytes 6 and 8 at 14 and 19 |
| Auth.VariantDigit | crates/smallauncher_lib/src/auth/offline.rs:4 | a byte with top bits `10` is written starting with `8`, `9`, `a` or `b` |
| Auth.OfflineUuidShape | crates/smallauncher_lib/src/auth/offline.rs:1-7 | the offline UUID has hyphens at 8, 13, 18, 23, version digit `3` at 14, a variant digit in `89ab` at 19, and reads back to the bit-fixed digest (section 3 of RFC 4122) |
| Auth.OfflineUuid | crates/smallauncher_lib/src/auth/offline.rs:1-7 | fixing bytes 6 and 8 of a 16-byte array in place and formatting it gives `OfflineUuidOf(md5("OfflinePlayer:" + name))`, a function of the name alone |
| Auth.AuthOffline | crates/smallauncher_lib/src/auth/mod.rs:30-34 | an offline account with the given name and its offline UUID |
| Auth.OfflineUuidOf | crates/smallauncher_lib/src/auth/offline.rs:3-6 | the hyphenated text of the fixed digest; stated by `Auth.OfflineUuidShape` |
| Classpath.Find | crates/smallauncher_lib/src/launch.rs:256 | the index of the first occurrence of the character, `None` iff absent |
| Classpath.FindAfter | crates/smallauncher_lib/src/launch.rs:256 | the first `c` in `a`, `c`, `b` (no `c` in `a`) is at `|a|`, and slicing around it gives `a` and `b` back |
| Classpath.Split | crates/smallauncher_lib/src/launch.rs:259-263 | at least one part, none containing the separator |
| Classpath.SplitJoin | crates/smallauncher_lib/src/launch.rs:259-263 | joining the parts gives the text back |
| Classpath.JoinSplit | crates/smallauncher_lib/src/launch.rs:220-272 | splitting a join of separator-free parts gives the parts back |
| Classpath.CountAppend | crates/smallauncher_lib/src/launch.rs:220-272 | separator count is additive over concatenation |
| Classpath.CountAbsent | crates/smallauncher_lib/src/launch.rs:220-272 | a text without the separator counts zero |
| Classpath.CountJoin | crates/smallauncher_lib/src/launch.rs:220-272 | a join of n separator-free parts holds n-1 separators |
| Classpath.ParseCoordinate | crates/smallauncher_lib/src/launch.rs:251-268 | without any `:` the coordinate has no directories and empty name and version |
| Classpath.ParseCoordinateOf | crates/smallauncher_lib/src/launch.rs:251-268 | `group:name:version` gives the group split at every `.`, the name, and the version (the rest, colons included) |
| Classpath.MavenPathOf | crates/smallauncher_lib/src/launch.rs:250-271 | the while loop re-slicing the group computes `MavenPath` |
| Classpath.MavenPathOfParts | crates/smallauncher_lib/src/launch.rs:250-271 | the Maven path is `libraries/<group dirs>/<name>/<version>/<name>-<version>.jar` |
| Classpath.SeparatorChar | crates/smallauncher_lib/src/launch.rs:215-218 | `:` on Unix, `;` on Windows |
| Classpath.LibraryEntryCases | crates/smallauncher_lib/src/launch.rs:225-272 | a library with an artifact contributes `libraries/<artifact.path>` iff its rules allow it; one without an artifact always contributes its Maven path |
| Classpath.MavenLibraryIgnoresRules | crates/smallauncher_lib/src/launch.rs:250-272 | a library without an artifact is never rule-filtered |
| Classpath.Retained | crates/smallauncher_lib/src/launch.rs:225-274 | at most one entry per library |
| Classpath.RenderAll | crates/smallauncher_lib/src/launch.rs:223-248 | one text per path |
| Classpath.RenderAllAt | crates/smallauncher_lib/src/launch.rs:223-248 | each path is displayed in place |
| Classpath.ClassPathEntry | crates/smallauncher_lib/src/launch.rs:226-272 | the body of the labelled loop, rule check with `continue 'l` or the Maven `while` loop, yields exactly the library's `LibraryEntry` |
| Classpath.GetClassPaths | crates/smallauncher_lib/src/launch.rs:206-276 | the labelled loop with `continue 'l` builds exactly `ClassPath`: the client jar, then separator and path for each retained library |
| Classpath.ListedJoin | crates/smallauncher_lib/src/launch.rs:220-272 | the classpath text is the join, by the separator, of the client jar and the retained libraries' paths: no leading or trailing separator |
| Classpath.ListedAppend | crates/smallauncher_lib/src/launch.rs:225-272 | each library's contribution is independent of the others: the list for a concatenation is the two lists one after the other |
| Classpath.ListedPrefixed | crates/smallauncher_lib/src/launch.rs:225-272 | what the libraries append is each retained library's path behind its own separator, in declaration order |
| Classpath.JoinPrefixed | crates/smallauncher_lib/src/launch.rs:220-272 | a first text followed by separator-prefixed pieces is the join of all of them |
| Classpath.ClassPathEntries | crates/smallauncher_lib/src/launch.rs:220-272 | splitting the classpath gives back the client jar and the retained libraries in declaration order, and the separator count is the number of retained libraries (when no path contains the separator) |
| Classpath.MavenPath | crates/smallauncher_lib/src/launch.rs:250-271 | `libraries/<group dirs>/<name>/<version>/<name>-<version>.jar`; stated by `Classpath.MavenPathOfParts` |
| Classpath.LibraryEntry | crates/smallauncher_lib/src/launch.rs:225-272 | one library's classpath entry; stated by `Classpath.LibraryEntryCases` |
| Classpath.ClassPath | crates/smallauncher_lib/src/launch.rs:206-276 | the client jar, then each retained library, behind the separator; stated by `Classpath.GetClassPaths`, `Classpath.ListedJoin` and `Classpath.ClassPathEntries` |
| Args.GameArgCases | crates/smallauncher_lib/src/launch.rs:124-156 | a token is dropped iff it is `--xuid` or `${auth_xuid}`; any token that is not a placeholder is copied verbatim |
| Args.GenerateGameArgs | crates/smallauncher_lib/src/launch.rs:119-163 | the loop builds exactly `GameArgs`, which always ends `--userProperties`, `{}` |
| Args.GameArgsOfAppend | crates/smallauncher_lib/src/launch.rs:123-159 | arguments are translated one by one, in order |
| Args.RuledGameArgumentDropped | crates/smallauncher_lib/src/launch.rs:157 | a rule-gated argument contributes nothing, wherever it stands |
| Args.GameArgsCopyLiterals | crates/smallauncher_lib/src/launch.rs:155 | plain tokens that are neither placeholders nor dropped are copied unchanged |
| Args.GameArgsOfKept | crates/smallauncher_lib/src/launch.rs:123-159 | plain tokens none of which is dropped give one output token each |
| Args.GameArgsOfNone | crates/smallauncher_lib/src/launch.rs:154-157 | rule-gated and dropped tokens give nothing |
| Args.DefaultGameArgsHead | crates/smallauncher_lib/src/launch.rs:127-151 | `--username <name> --version <id> --gameDir <game> --assetsDir <game>/assets` |
| Args.DefaultGameArgsMiddle | crates/smallauncher_lib/src/launch.rs:126-152 | `--assetIndex <index id> --uuid <uuid> --accessToken <token or empty> --clientId 42` |
| Args.DefaultGameArgsXuid | crates/smallauncher_lib/src/launch.rs:154 | the default `--xuid ${auth_xuid}` pair yields nothing |
| Args.DefaultGameArgsTail | crates/smallauncher_lib/src/launch.rs:139-154 | `--userType <msa or empty> --versionType <Display of type>` |
| Args.DefaultGameArgs | crates/smallauncher_lib/src/launch.rs:119-163 | with the default arguments the game arguments are exactly the 20 substituted tokens plus `--userProperties {}`; an offline account gives empty tokens for the access token and user type |
| Args.JvmArg | crates/smallauncher_lib/src/launch.rs:172-199 | a token that is none of the seven exact placeholders is copied unchanged |
| Args.JvmArgsOf | crates/smallauncher_lib/src/launch.rs:170-202 | at most one output per argument (rule-gated ones are dropped) |
| Args.JvmArgsOfAppend | crates/smallauncher_lib/src/launch.rs:170-202 | arguments are translated one by one, in order |
| Args.JvmArgsOfPlain | crates/smallauncher_lib/src/launch.rs:170-202 | plain tokens give exactly one output each, in order |
| Args.GenerateJvmArgs | crates/smallauncher_lib/src/launch.rs:165-204 | the loop builds exactly `JvmArgs` |
| Args.DefaultJvmArgs | crates/smallauncher_lib/src/launch.rs:165-204 | with the default arguments the JVM arguments are the four natives-directory properties pointing at `<game>/bin`, the launcher brand `miniLauncher` and version `42`, then `-cp` and the classpath |
| Args.GameArg | crates/smallauncher_lib/src/launch.rs:124-158 | one plain game argument: the placeholder substitutions, `--xuid` and `${auth_xuid}` dropped, anything else copied; stated by `Args.GameArgCases` |
| Args.GameArgs | crates/smallauncher_lib/src/launch.rs:119-163 | the translated game arguments followed by `--userProperties {}`; stated by `Args.GenerateGameArgs` and `Args.DefaultGameArgs` |
| Args.JvmArgs | crates/smallauncher_lib/src/launch.rs:165-204 | the translated JVM arguments with the natives directory and the classpath; stated by `Args.GenerateJvmArgs` and `Args.DefaultJvmArgs` |
| Integrity.CheckVersionIntegrity | crates/smallauncher_lib/src/launch.rs:278-300 | the early-exit check reads the state only and returns `Intact` |
| Integrity.AssetsIntactIff | crates/smallauncher_lib/src/launch.rs:291-298 | the asset loop answers true iff every object's hash is at least two characters and its file exists with that SHA-1 |
| Integrity.AssetsIntactPanics | crates/smallauncher_lib/src/launch.rs:292 | it panics only when some hash is shorter than two characters |
| Integrity.IntactIff | crates/smallauncher_lib/src/launch.rs:278-300 | true iff the version JSON reads and decodes, the client jar's SHA-1 matches, the asset index exists and decodes, and every asset's SHA-1 matches; every other case is false |
| Integrity.AssetsIntact | crates/smallauncher_lib/src/launch.rs:291-298 | the asset loop: a short hash panics, a bad file answers false; stated by `Integrity.AssetsIntactIff` and `Integrity.AssetsIntactPanics` |
| Integrity.Intact | crates/smallauncher_lib/src/launch.rs:278-300 | the value of `check_version_integrity`; stated by `Integrity.IntactIff` |
| Launch.Launch | crates/smallauncher_lib/src/launch.rs:36-75 | a command is produced iff resolution and extraction succeeded |
| Launch.LaunchMinecraftVersion | crates/smallauncher_lib/src/launch.rs:36-75 | in place, ends in exactly the state, status and command of `Launch` |
| Launch.LaunchedCommand | crates/smallauncher_lib/src/launch.rs:59-70 | the program is `<jre>/<component>/bin/java` on Unix and `<jre>/<component>/bin/java.exe` on Windows, the working directory the game directory, the arguments the JVM arguments, then the main class, then the game arguments, ending `--userProperties {}` |
| Launch.LaunchOnlyWritesNatives | crates/smallauncher_lib/src/launch.rs:42-57 | launching writes only paths `bin` + [entry name], the entry name taken as one opaque path segment: the version files and libraries are as they were, whether the launch succeeds or not |
| Launch.JavaBinary | crates/smallauncher_lib/src/launch.rs:63-66 | `<jre>/<component>/bin/java`, `java.exe` on Windows; stated by `Launch.LaunchedCommand` |
| Launch.CommandFor | crates/smallauncher_lib/src/launch.rs:59-70 | the JVM arguments, the main class, then the game arguments, run in the game directory; stated by `Launch.LaunchedCommand` |

## Left out

- Network access (`download`, `get_from_url`, `ureq`): the remote is a parameter that maps
  each URL to a document or an error. A failed transfer is modelled as writing nothing to the
  already truncated file. Partial content from a transfer that breaks midway is not modelled.
- SHA-1 with hex encoding, MD5, zip decoding, JSON text parsing and `to_string_pretty` are
  uninterpreted function parameters.
- `zip.by_index` and `io::copy` errors inside the entry loop of `extract_natives` are not
  modelled separately: an archive either decodes to its entries or is a `Zip` error.
- A single `write` call is modelled as writing all of its bytes. A short write is not modelled.
- Process spawning, the Windows `DETACHED_PROCESS` flag, logging and spawn failure are not
  modelled. The launch ends with the command it would spawn.
- `list_versions` (a directory listing) and `list_all_versions` (a network call) are not part
  of this model.
- Microsoft authentication, account `save`/`load`, `main.rs`, `env.rs` and `build.rs` are not
  part of this model. Only the `Account` datatype and `auth_offline` are.
- Paths are sequences of opaque segments. Three `PathBuf` behaviours are not modelled:
  - pushing an absolute segment does not replace the path;
  - a segment containing `/` is not split;
  - an empty segment is not normalised away (e.g. the empty group or name of a Maven
    coordinate without `:`).
- `hash[0..2]` is modelled on characters. A panic at a UTF-8 boundary inside the first two
  bytes is not modelled.
- JSON numbers are natural numbers (`size`, `majorVersion` as `u16`). Floating-point and
  negative numbers are decode errors.
- Opening a directory as an archive is an `Io` error in the model, as is reading any path that
  is not a file.
- A runtime file whose hash already matches but which lacks the executable bit is left as it
  is, as the source leaves it. The model claims no mode for files it did not download.
- The iteration order of `HashMap`s (asset objects, Java runtime files) is the order of a
  sequence in the model. No property depends on it except which failure is reported first.
- `Argument::Object` values with nested rules are decoded but never evaluated, because both
  argument generators drop them.
- Natives.ExtractLibraryFrame: the frame is stated for the model's paths, where an entry
  name is one opaque segment under `bin`. A real entry name with `/`, a `..` component or a
  leading `/` lands elsewhere (see "## Findings"), so the lemma does not promise that such
  an entry stays under `bin`.
- Natives.ExtractAllFrame: stated for opaque entry names, as for
  `Natives.ExtractLibraryFrame`.
- Launch.LaunchOnlyWritesNatives: stated for opaque entry names, as for
  `Natives.ExtractLibraryFrame`. For a name that escapes, a real launch can overwrite files
  outside `bin`.
- Plan.EnsureFileEffect: `set_permissions` (download.rs line 86) cannot fail in the model
  (`Store.SetMode755` is total), so a failure to change the mode is never reported and a
  download with the 0755 flag always ends marked executable.
- Meta.AsObject: serde also accepts a struct written as a JSON array of its fields in
  declaration order. The model's decoders (`Meta.DecodeVersion` and the other
  `Meta.Decode*` functions of structs) accept only the object form and reject the array form
  with `Serialize`.

## Findings

| source | as written | input that shows it | evidently intended | confidence | as-written member | corrected member |
|---|---|---|---|---|---|---|
| crates/smallauncher_lib/src/launch.rs:106-110 | the raw zip entry name is joined to `<game>/bin` after only a suffix test, so an absolute name or a `..` component leaves `bin` | a native jar with an entry named `../x.so` lands at `<game>/x.so`; one named `/x.so` lands at `/x.so` (`Natives.AbsoluteEntryEscapes`) | names that are absolute or have a `..` component are skipped, as the `zip` crate's `enclosed_name` does, so every extracted file stays below `bin` | not executed | Natives.ParentEntryEscapes | Natives.CheckedPathStaysInBin |

Where an entry really lands is `Natives.Landing`: the name split at `/`, `..` going up a
level, an absolute name starting again at the root. The corrected target is
`Natives.CheckedExtractedPath`, built on `Natives.EnclosedName`. For every plain name (no `/`,
not `.` or `..`) it is the path `bin` + [name] that the extraction model writes
(`Natives.CheckedPathStaysInBin`, `Natives.PlainNameLanding`). The extraction model itself
keeps the code's behaviour, so its frame lemmas are stated for opaque entry names (see
"## Left out").
