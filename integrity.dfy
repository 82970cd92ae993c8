/** `check_version_integrity` (crates/smallauncher_lib/src/launch.rs:278-300): a read-only check
    that the version's JSON file decodes, the client jar's SHA-1 matches, the asset index decodes
    and every asset object's SHA-1 matches. The version file is decoded as it is, without
    following `inheritsFrom`. */
module Integrity {
  import opened Wrappers
  import opened Errors
  import opened Paths
  import opened Store
  import opened Layout
  import opened Outside
  import opened Resolve
  import AssetsApi
  import Meta
  import Fs

  /** What the function does: return a verdict, or panic (slicing the first two characters of an
      asset hash shorter than that). */
  datatype Outcome = Returns(value: bool) | Panics

  /** The loop over the asset objects (lines 291-298). */
  function AssetsIntact(d: Disk, game: Path, objects: seq<(string, AssetsApi.Asset)>, sha1Hex: Bytes -> string): Outcome
  {
    if objects == [] then Returns(true)
    else
      var hash := objects[0].1.hash;
      if |hash| < 2 then Panics
      else if !Valid(d, hash, AssetObjectPath(game, hash), sha1Hex) then Returns(false)
      else AssetsIntact(d, game, objects[1..], sha1Hex)
  }

  /** The value of `check_version_integrity`. */
  function Intact(d: Disk, codec: Codec, game: Path, name: string): Outcome
  {
    match ReadJson(d, VersionJsonPath(game, name), codec.parseJson)
    case Err(_) => Returns(false)
    case Ok(j) =>
      match Meta.DecodeVersion(j)
      case Err(_) => Returns(false)
      case Ok(version) =>
        if !Valid(d, version.downloads.client.sha1, ClientJarPath(game, name), codec.sha1Hex) then Returns(false)
        else
          var index := AssetIndexPath(game, version.assetIndex.id);
          if index !in d.files then Returns(false)
          else
            match codec.decodeAssets(d.files[index])
            case Err(_) => Returns(false)
            case Ok(assets) => AssetsIntact(d, game, assets.objects, codec.sha1Hex)
  }

  /** `check_version_integrity` as written: it reads the file system and changes nothing. */
  method CheckVersionIntegrity(fs: Fs.FileSystem, codec: Codec, game: Path, name: string) returns (r: Outcome)
    ensures r == Intact(fs.State(), codec, game, name)
  {
    var pathVersion := VersionJsonPath(game, name);
    var pathClient := ClientJarPath(game, name);
    if pathVersion !in fs.files {
      return Returns(false);
    }
    var json := codec.parseJson(fs.files[pathVersion]);
    if json.Err? {
      return Returns(false);
    }
    var decoded := Meta.DecodeVersion(json.value);
    if decoded.Err? {
      return Returns(false);
    }
    var version := decoded.value;
    var clientHash := fs.FileHash(version.downloads.client.sha1, pathClient, codec.sha1Hex);
    if !(clientHash.Ok? && clientHash.value) {
      return Returns(false);
    }
    var pathAssets := AssetIndexPath(game, version.assetIndex.id);
    if pathAssets !in fs.files {
      return Returns(false);
    }
    var assets := codec.decodeAssets(fs.files[pathAssets]);
    if assets.Err? {
      return Returns(false);
    }
    var objects := assets.value.objects;
    var i := 0;
    while i < |objects|
      invariant 0 <= i <= |objects|
      invariant AssetsIntact(fs.State(), game, objects, codec.sha1Hex) == AssetsIntact(fs.State(), game, objects[i..], codec.sha1Hex)
    {
      assert objects[i..][1..] == objects[i + 1..];
      var hash := objects[i].1.hash;
      if |hash| < 2 {
        return Panics;
      }
      var path := AssetObjectPath(game, hash);
      var matches := fs.FileHash(hash, path, codec.sha1Hex);
      if !(matches.Ok? && matches.value) {
        return Returns(false);
      }
      i := i + 1;
    }
    return Returns(true);
  }

  // ---------------------------------------------------------------- properties

  /** The asset loop answers true exactly when every object's file is there with its hash. */
  lemma {:induction false} AssetsIntactIff(d: Disk, game: Path, objects: seq<(string, AssetsApi.Asset)>, sha1Hex: Bytes -> string)
    ensures AssetsIntact(d, game, objects, sha1Hex) == Returns(true) <==>
            forall i :: 0 <= i < |objects| ==>
              var hash := objects[i].1.hash;
              |hash| >= 2 && AssetObjectPath(game, hash) in d.files && sha1Hex(d.files[AssetObjectPath(game, hash)]) == hash
  {
    if objects != [] {
      AssetsIntactIff(d, game, objects[1..], sha1Hex);
      assert forall i :: 1 <= i < |objects| ==> objects[i] == objects[1..][i - 1];
    }
  }

  /** It panics only on a hash shorter than two characters, every earlier object being intact. */
  lemma {:induction false} AssetsIntactPanics(d: Disk, game: Path, objects: seq<(string, AssetsApi.Asset)>, sha1Hex: Bytes -> string)
    requires AssetsIntact(d, game, objects, sha1Hex) == Panics
    ensures exists k :: 0 <= k < |objects| && |objects[k].1.hash| < 2
  {
    if |objects[0].1.hash| >= 2 {
      AssetsIntactPanics(d, game, objects[1..], sha1Hex);
      var k :| 0 <= k < |objects| - 1 && |objects[1..][k].1.hash| < 2;
      assert objects[k + 1] == objects[1..][k];
    }
  }

  /** `check_version_integrity` is true exactly when the version file decodes, the client jar
      matches its SHA-1, the asset index decodes and every asset object matches its hash. */
  lemma IntactIff(d: Disk, codec: Codec, game: Path, name: string)
    ensures Intact(d, codec, game, name) == Returns(true) <==>
      && ReadJson(d, VersionJsonPath(game, name), codec.parseJson).Ok?
      && var version := Meta.DecodeVersion(ReadJson(d, VersionJsonPath(game, name), codec.parseJson).value);
      && version.Ok?
      && var client := ClientJarPath(game, name);
      && client in d.files && codec.sha1Hex(d.files[client]) == version.value.downloads.client.sha1
      && var index := AssetIndexPath(game, version.value.assetIndex.id);
      && index in d.files
      && codec.decodeAssets(d.files[index]).Ok?
      && var objects := codec.decodeAssets(d.files[index]).value.objects;
      && forall i :: 0 <= i < |objects| ==>
           var hash := objects[i].1.hash;
           |hash| >= 2 && AssetObjectPath(game, hash) in d.files && codec.sha1Hex(d.files[AssetObjectPath(game, hash)]) == hash
  {
    var j := ReadJson(d, VersionJsonPath(game, name), codec.parseJson);
    if j.Ok? && Meta.DecodeVersion(j.value).Ok? {
      var version := Meta.DecodeVersion(j.value).value;
      var index := AssetIndexPath(game, version.assetIndex.id);
      if index in d.files && codec.decodeAssets(d.files[index]).Ok? {
        AssetsIntactIff(d, game, codec.decodeAssets(d.files[index]).value.objects, codec.sha1Hex);
      }
    }
  }
}
