/** The Java runtime index (crates/smallauncher_lib/src/api/java.rs). */
module JavaApi {
  import opened Wrappers
  import Meta

  /** `JavaVersions::DEFAULT_URL`. */
  const DefaultUrl := "https://launchermeta.mojang.com/v1/products/java-runtime/2ec0cc96c44e5a76b9c8b7c39df7210883d12871/all.json"

  datatype JavaVersions = JavaVersions(
    linux: PlatformVersion,
    linuxI386: PlatformVersion,
    macOs: PlatformVersion,
    macOsArm64: PlatformVersion,
    windowsArm64: PlatformVersion,
    windowsX64: PlatformVersion,
    windowsX86: PlatformVersion)

  /** The runtimes published for one platform, by component. */
  datatype PlatformVersion = PlatformVersion(
    javaRuntimeAlpha: seq<Runtime>,
    javaRuntimeBeta: seq<Runtime>,
    javaRuntimeDelta: seq<Runtime>,
    javaRuntimeGamma: seq<Runtime>,
    javaRuntimeGammaSnapshot: seq<Runtime>,
    jreLegacy: seq<Runtime>)

  /** `java::Version`: where the runtime's file list is, and its name. */
  datatype Runtime = Runtime(manifest: Meta.Download, version: RuntimeName)

  datatype RuntimeName = RuntimeName(name: string, released: string)

  /** One entry of a runtime's file list, tagged by `type`. */
  datatype JavaFile =
    | Directory
    | Link(target: string)
    | File(executable: bool, downloads: FileDownloads)

  datatype FileDownloads = FileDownloads(raw: Meta.Download, lzma: Option<Meta.Download>)

  /** `java::Files`: the `HashMap` of relative paths to entries, as the sequence of its entries
      in iteration order. */
  datatype JavaFiles = JavaFiles(files: seq<(string, JavaFile)>)

  /** The six component names the installer recognises. */
  const Components: seq<string> :=
    ["java-runtime-alpha", "java-runtime-beta", "java-runtime-delta",
     "java-runtime-gamma", "java-runtime-gamma-snapshot", "jre-legacy"]

  /** The list of runtimes published for `component`, or `None` for a component the installer
      does not recognise. */
  function RuntimesFor(v: PlatformVersion, component: string): (r: Option<seq<Runtime>>)
    ensures r.Some? <==> component in Components
  {
    match component
    case "java-runtime-alpha" => Some(v.javaRuntimeAlpha)
    case "java-runtime-beta" => Some(v.javaRuntimeBeta)
    case "java-runtime-delta" => Some(v.javaRuntimeDelta)
    case "java-runtime-gamma" => Some(v.javaRuntimeGamma)
    case "java-runtime-gamma-snapshot" => Some(v.javaRuntimeGammaSnapshot)
    case "jre-legacy" => Some(v.jreLegacy)
    case _ => None
  }
}

/** The asset index (crates/smallauncher_lib/src/api/assets.rs). */
module AssetsApi {
  /** `Assets.objects`, a `HashMap` from asset name to object, as its entries in iteration order. */
  datatype Assets = Assets(objects: seq<(string, Asset)>)

  datatype Asset = Asset(hash: string, size: nat)
}

/** What the launcher takes from outside: the HTTP endpoints (`api::get_from_url` and the body
    of `download`), and the libraries for JSON, SHA-1 and zip. They are parameters of the model,
    so every property holds whatever they answer. */
module Outside {
  import opened Wrappers
  import opened Errors
  import Meta
  import Manifest
  import JavaApi
  import AssetsApi
  import Json

  type Bytes = seq<bv8>

  /** The answer of every URL the launcher fetches, by kind of document. */
  datatype Remote = Remote(
    manifest: string -> Result<Manifest.Manifest, Error>,
    version: string -> Result<Meta.Version, Error>,
    assets: string -> Result<AssetsApi.Assets, Error>,
    javaVersions: string -> Result<JavaApi.JavaVersions, Error>,
    javaFiles: string -> Result<JavaApi.JavaFiles, Error>,
    fetch: string -> Result<Bytes, Error>)

  /** One entry of a zip archive: its name inside the archive and its content. */
  datatype ZipEntry = ZipEntry(name: string, data: Bytes)

  datatype Codec = Codec(
    sha1Hex: Bytes -> string,                                 // `hex::encode(Sha1::digest(..))`
    parseJson: Bytes -> Result<Json.Json, Error>,             // `fs::read_to_string` + `serde_json::from_str`
    encodeVersion: Meta.Version -> Result<Bytes, Error>,      // `serde_json::to_string_pretty`
    encodeAssets: AssetsApi.Assets -> Result<Bytes, Error>,   // `serde_json::to_string_pretty`
    decodeAssets: Bytes -> Result<AssetsApi.Assets, Error>,   // `serde_json::from_str`, entries in `HashMap` order
    unzip: Bytes -> Option<seq<ZipEntry>>)                    // `zip::ZipArchive`; `None` is a `ZipError`
}
