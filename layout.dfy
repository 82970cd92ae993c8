/** Where the launcher keeps things under the game directory and the runtime directory
    (crates/smallauncher_lib/src/download.rs:25-27, 43, 133, 155, 166 and
    crates/smallauncher_lib/src/launch.rs:43, 64-66, 101, 110, 122, 168, 222, 247, 279-294). */
module Layout {
  import opened Paths

  /** `<game>/versions/<id>/<id>.jar`. */
  function ClientJarPath(game: Path, id: string): Path
  {
    game + ["versions", id, id + ".jar"]
  }

  /** `<game>/versions/<id>/<id>.json`. */
  function VersionJsonPath(game: Path, id: string): Path
  {
    game + ["versions", id, id + ".json"]
  }

  /** `<game>/assets/indexes/<index id>.json`. */
  function AssetIndexPath(game: Path, indexId: string): Path
  {
    game + ["assets", "indexes", indexId + ".json"]
  }

  /** `<game>/assets/objects/<first two characters of hash>/<hash>`. */
  function AssetObjectPath(game: Path, hash: string): Path
    requires |hash| >= 2
  {
    game + ["assets", "objects", hash[..2], hash]
  }

  /** `<game>/launcher_profiles.json`. */
  function ProfilePath(game: Path): Path
  {
    game + ["launcher_profiles.json"]
  }

  /** `<game>/libraries/<relative path>`. */
  function LibraryPath(game: Path, relative: string): Path
  {
    game + ["libraries", relative]
  }

  /** `<game>/bin`, where native libraries are extracted. */
  function NativesDir(game: Path): Path
  {
    game + ["bin"]
  }

  /** `<game>/assets`. */
  function AssetsRoot(game: Path): Path
  {
    game + ["assets"]
  }

  /** `<jre>/<component>/<relative path>`. */
  function RuntimeFilePath(jre: Path, component: string, relative: string): Path
  {
    jre + [component, relative]
  }

  /** The client jar is neither the version's JSON file nor an asset index. */
  lemma JarIsNotJson(game: Path, id: string, indexId: string)
    ensures ClientJarPath(game, id) != VersionJsonPath(game, id)
    ensures ClientJarPath(game, id) != AssetIndexPath(game, indexId)
  {
    var n := |game|;
    assert ClientJarPath(game, id)[n + 2] == id + ".jar";
    assert VersionJsonPath(game, id)[n + 2] == id + ".json";
    assert (id + ".jar")[|id| + 2] == 'a' && (id + ".json")[|id| + 2] == 's';
    assert ClientJarPath(game, id)[n] == "versions" && AssetIndexPath(game, indexId)[n] == "assets";
  }
}
