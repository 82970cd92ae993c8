/** Per-version metadata (crates/smallauncher_lib/src/api/meta.rs): the records, their defaults,
    the display and wire names of the enums, and the serde decoding of a version document from an
    untyped JSON value (used after the inheritance merge). */
module Meta {
  import opened Wrappers
  import opened Errors
  import opened Json

  /** Rust's `u16`. */
  type U16 = x: int | 0 <= x < 0x1_0000

  datatype Version = Version(
    id: string,
    arguments: Arguments,
    assetIndex: AssetIndex,
    downloads: Downloads,
    javaVersion: JavaVersion,
    libraries: seq<Library>,
    mainClass: string,
    versionType: VersionType)

  datatype JavaVersion = JavaVersion(component: string, majorVersion: U16)

  datatype Arguments = Arguments(game: seq<Argument>, jvm: seq<Argument>)

  /** `Argument::String` is `Plain`, `Argument::Object` is `Ruled`. */
  datatype Argument = Plain(token: string) | Ruled(rule: ArgumentRule)

  datatype ArgumentRule = ArgumentRule(rules: seq<Rule>, value: ArgumentValue)

  /** `ArgumentValue::String` is `One`, `ArgumentValue::List` is `List`. */
  datatype ArgumentValue = One(token: string) | List(tokens: seq<string>)

  datatype AssetIndex = AssetIndex(id: string, sha1: string, size: nat, totalSize: nat, url: string)

  datatype Downloads = Downloads(client: Download, server: Option<Download>)

  datatype Download = Download(url: string, size: nat, sha1: string)

  datatype VersionType = Release | Snapshot | OldBeta | OldAlpha

  datatype Library = Library(
    name: string,
    downloads: Option<LibraryDownload>,
    natives: Option<Json>,
    rules: Option<seq<Rule>>)

  datatype LibraryDownload = LibraryDownload(artifact: Option<Artifact>, classifiers: Option<Classifiers>)

  datatype Classifiers = Classifiers(
    nativesLinux: Option<Artifact>,
    nativesOsx: Option<Artifact>,
    nativesWindows: Option<Artifact>)

  datatype Artifact = Artifact(url: string, path: string, sha1: string)

  datatype Rule = Rule(action: Action, os: Option<Os>)

  datatype Os = Os(name: Option<OsName>, arch: Option<Arch>)

  datatype Arch = X86

  datatype OsName = Windows | Osx | Linux

  datatype Action = Allow | Disallow

  // ---------------------------------------------------------------- defaults

  /** `Arguments::default()` (the argument lists used by versions whose document has no
      `arguments`), written in four runs of game arguments: the directories, the account, the
      xuid pair, and the user and version types. */
  const DefaultGameHead: seq<Argument> :=
    [ Plain("--username"), Plain("${auth_player_name}"),
      Plain("--version"), Plain("${version_name}"),
      Plain("--gameDir"), Plain("${game_directory}"),
      Plain("--assetsDir"), Plain("${assets_root}") ]

  const DefaultGameMiddle: seq<Argument> :=
    [ Plain("--assetIndex"), Plain("${assets_index_name}"),
      Plain("--uuid"), Plain("${auth_uuid}"),
      Plain("--accessToken"), Plain("${auth_access_token}"),
      Plain("--clientId"), Plain("${clientid}") ]

  const DefaultGameXuid: seq<Argument> := [ Plain("--xuid"), Plain("${auth_xuid}") ]

  const DefaultGameTail: seq<Argument> :=
    [ Plain("--userType"), Plain("${user_type}"),
      Plain("--versionType"), Plain("${version_type}") ]

  const DefaultJvm: seq<Argument> :=
    [ Plain("-Djava.library.path=${natives_directory}"),
      Plain("-Djna.tmpdir=${natives_directory}"),
      Plain("-Dorg.lwjgl.system.SharedLibraryExtractPath=${natives_directory}"),
      Plain("-Dio.netty.native.workdir=${natives_directory}"),
      Plain("-Dminecraft.launcher.brand=${launcher_name}"),
      Plain("-Dminecraft.launcher.version=${launcher_version}"),
      Plain("-cp"), Plain("${classpath}") ]

  function DefaultArguments(): Arguments
  {
    Arguments(DefaultGameHead + DefaultGameMiddle + DefaultGameXuid + DefaultGameTail, DefaultJvm)
  }

  lemma DefaultArgumentsShape()
    ensures var a := DefaultArguments();
      && |a.game| == 22 && |a.jvm| == 8
      && (forall i :: 0 <= i < 22 ==> a.game[i].Plain?)
      && (forall i :: 0 <= i < 8 ==> a.jvm[i].Plain?)
      && a.game[16] == Plain("--xuid") && a.game[17] == Plain("${auth_xuid}")
      && a.game[20] == Plain("--versionType") && a.game[21] == Plain("${version_type}")
      && a.jvm[6] == Plain("-cp") && a.jvm[7] == Plain("${classpath}")
  {
    var g := DefaultArguments().game;
    assert g[16..18] == DefaultGameXuid && g[18..] == DefaultGameTail;
  }

  /** `JavaVersion::default()`. */
  function DefaultJavaVersion(): (v: JavaVersion)
    ensures v.component == "jre-legacy" && v.majorVersion == 8
  {
    JavaVersion("jre-legacy", 8)
  }

  // ---------------------------------------------------------------- names

  /** The `Display` text of a version type, substituted for `${version_type}`. */
  function Display(t: VersionType): string
  {
    match t
    case Release => "Release"
    case Snapshot => "Snapshot"
    case OldBeta => "OldBeta"
    case OldAlpha => "OldAlpha"
  }

  lemma DisplayInjective(s: VersionType, t: VersionType)
    ensures Display(s) == Display(t) <==> s == t
  {
  }

  /** The serde (snake_case) name of a version type in a document. */
  function VersionTypeName(t: VersionType): string
  {
    match t
    case Release => "release"
    case Snapshot => "snapshot"
    case OldBeta => "old_beta"
    case OldAlpha => "old_alpha"
  }

  function ParseVersionType(s: string): (r: Option<VersionType>)
    ensures forall t :: VersionTypeName(t) == s <==> r == Some(t)
  {
    if s == "release" then Some(Release)
    else if s == "snapshot" then Some(Snapshot)
    else if s == "old_beta" then Some(OldBeta)
    else if s == "old_alpha" then Some(OldAlpha)
    else None
  }

  lemma VersionTypeNameRoundTrip(t: VersionType)
    ensures ParseVersionType(VersionTypeName(t)) == Some(t)
  {
  }

  function ActionName(a: Action): string
  {
    match a
    case Allow => "allow"
    case Disallow => "disallow"
  }

  function ParseAction(s: string): (r: Option<Action>)
    ensures forall a :: ActionName(a) == s <==> r == Some(a)
  {
    if s == "allow" then Some(Allow)
    else if s == "disallow" then Some(Disallow)
    else None
  }

  function OsNameName(n: OsName): string
  {
    match n
    case Windows => "windows"
    case Osx => "osx"
    case Linux => "linux"
  }

  function ParseOsName(s: string): (r: Option<OsName>)
    ensures forall n :: OsNameName(n) == s <==> r == Some(n)
  {
    if s == "windows" then Some(Windows)
    else if s == "osx" then Some(Osx)
    else if s == "linux" then Some(Linux)
    else None
  }

  function ArchName(a: Arch): string
  {
    match a
    case X86 => "x86"
  }

  function ParseArch(s: string): (r: Option<Arch>)
    ensures r.Some? <==> s == ArchName(X86)
    ensures r.Some? ==> ArchName(r.value) == s
  {
    if s == "x86" then Some(X86) else None
  }

  /** The kebab-case keys of `Classifiers`. */
  const NativesLinuxKey := "natives-linux"
  const NativesOsxKey := "natives-osx"
  const NativesWindowsKey := "natives-windows"

  // ---------------------------------------------------------------- serde decoding

  function AsString(j: Json): (r: Result<string, Error>)
    ensures r.Ok? <==> j.Str?
  {
    if j.Str? then Ok(j.s) else Err(Serialize)
  }

  /** Rust's `usize`: any non-negative integer. */
  function AsNat(j: Json): Result<nat, Error>
  {
    if j.Number? && j.n >= 0 then Ok(j.n) else Err(Serialize)
  }

  function AsU16(j: Json): Result<U16, Error>
  {
    if j.Number? && 0 <= j.n < 0x1_0000 then Ok(j.n) else Err(Serialize)
  }

  function AsObject(j: Json): Result<map<string, Json>, Error>
  {
    if j.Object? then Ok(j.members) else Err(Serialize)
  }

  /** A JSON array whose every element decodes with `item`. */
  function Items<T>(js: seq<Json>, item: Json -> Result<T, Error>): Result<seq<T>, Error>
  {
    if js == [] then Ok([])
    else
      var x :- item(js[0]);
      var rest :- Items(js[1..], item);
      Ok([x] + rest)
  }

  /** A list decodes exactly when every element does, to the elements' values in order. */
  lemma {:induction false} ItemsAll<T>(js: seq<Json>, item: Json -> Result<T, Error>)
    ensures Items(js, item).Ok? ==> |Items(js, item).value| == |js|
    ensures Items(js, item).Ok? <==> forall i :: 0 <= i < |js| ==> item(js[i]).Ok?
    ensures Items(js, item).Ok? ==> forall i :: 0 <= i < |js| ==> item(js[i]) == Ok(Items(js, item).value[i])
  {
    if js != [] {
      ItemsAll(js[1..], item);
      assert forall i :: 1 <= i < |js| ==> js[i] == js[1..][i - 1];
    }
  }

  /** Decoding a concatenation decodes both parts. */
  lemma {:induction false} ItemsAppend<T>(xs: seq<Json>, ys: seq<Json>, item: Json -> Result<T, Error>)
    ensures Items(xs + ys, item).Ok? <==> Items(xs, item).Ok? && Items(ys, item).Ok?
    ensures Items(xs + ys, item).Ok? ==> Items(xs + ys, item).value == Items(xs, item).value + Items(ys, item).value
  {
    if xs == [] {
      assert xs + ys == ys;
    } else {
      var zs := xs + ys;
      assert zs[0] == xs[0];
      assert zs[1..] == xs[1..] + ys;
      ItemsAppend(xs[1..], ys, item);
      if Items(zs, item).Ok? {
        var x := item(xs[0]).value;
        assert Items(zs, item).value == [x] + Items(xs[1..] + ys, item).value;
        assert Items(xs, item).value == [x] + Items(xs[1..], item).value;
      }
    }
  }


  function AsList<T>(j: Json, item: Json -> Result<T, Error>): Result<seq<T>, Error>
  {
    if j.Array? then Items(j.items, item) else Err(Serialize)
  }

  /** A field without `#[serde(default)]` and not an `Option`: it must be present. */
  function Required<T>(m: map<string, Json>, key: string, dec: Json -> Result<T, Error>): Result<T, Error>
  {
    if key in m then dec(m[key]) else Err(Serialize)
  }

  /** An `Option` field: absent or `null` is `None`. */
  function Optional<T>(m: map<string, Json>, key: string, dec: Json -> Result<T, Error>): Result<Option<T>, Error>
  {
    if key !in m || m[key] == Null then Ok(None)
    else
      var v :- dec(m[key]);
      Ok(Some(v))
  }

  /** A `#[serde(default)]` field: absent is the default, present must decode. */
  function Defaulted<T>(m: map<string, Json>, key: string, dec: Json -> Result<T, Error>, default: T): Result<T, Error>
  {
    if key in m then dec(m[key]) else Ok(default)
  }

  function DecodeAction(j: Json): Result<Action, Error>
  {
    if j.Str? && ParseAction(j.s).Some? then Ok(ParseAction(j.s).value) else Err(Serialize)
  }

  function DecodeOsName(j: Json): Result<OsName, Error>
  {
    if j.Str? && ParseOsName(j.s).Some? then Ok(ParseOsName(j.s).value) else Err(Serialize)
  }

  function DecodeArch(j: Json): Result<Arch, Error>
  {
    if j.Str? && ParseArch(j.s).Some? then Ok(ParseArch(j.s).value) else Err(Serialize)
  }

  function DecodeVersionType(j: Json): Result<VersionType, Error>
  {
    if j.Str? && ParseVersionType(j.s).Some? then Ok(ParseVersionType(j.s).value) else Err(Serialize)
  }

  function DecodeOs(j: Json): Result<Os, Error>
  {
    var m :- AsObject(j);
    var name :- Optional(m, "name", DecodeOsName);
    var arch :- Optional(m, "arch", DecodeArch);
    Ok(Os(name, arch))
  }

  function DecodeRule(j: Json): Result<Rule, Error>
  {
    var m :- AsObject(j);
    var action :- Required(m, "action", DecodeAction);
    var os :- Optional(m, "os", DecodeOs);
    Ok(Rule(action, os))
  }

  function DecodeRules(j: Json): Result<seq<Rule>, Error>
  {
    AsList(j, DecodeRule)
  }

  /** Untagged: a JSON string is `One`; otherwise a list of strings is `List`. */
  function DecodeArgumentValue(j: Json): Result<ArgumentValue, Error>
  {
    if j.Str? then Ok(One(j.s))
    else
      match AsList(j, AsString)
      case Ok(tokens) => Ok(List(tokens))
      case Err(_) => Err(Serialize)
  }

  function DecodeArgumentRule(j: Json): Result<ArgumentRule, Error>
  {
    var m :- AsObject(j);
    var rules :- Required(m, "rules", DecodeRules);
    var value :- Required(m, "value", DecodeArgumentValue);
    Ok(ArgumentRule(rules, value))
  }

  /** Untagged: a JSON string is `Plain`; otherwise the value must decode as an `ArgumentRule`. */
  function DecodeArgument(j: Json): Result<Argument, Error>
  {
    if j.Str? then Ok(Plain(j.s))
    else
      match DecodeArgumentRule(j)
      case Ok(rule) => Ok(Ruled(rule))
      case Err(_) => Err(Serialize)
  }

  function DecodeArguments(j: Json): Result<Arguments, Error>
  {
    var m :- AsObject(j);
    var game :- Required(m, "game", x => AsList(x, DecodeArgument));
    var jvm :- Required(m, "jvm", x => AsList(x, DecodeArgument));
    Ok(Arguments(game, jvm))
  }

  function DecodeAssetIndex(j: Json): Result<AssetIndex, Error>
  {
    var m :- AsObject(j);
    var id :- Required(m, "id", AsString);
    var sha1 :- Required(m, "sha1", AsString);
    var size :- Required(m, "size", AsNat);
    var totalSize :- Required(m, "totalSize", AsNat);
    var url :- Required(m, "url", AsString);
    Ok(AssetIndex(id, sha1, size, totalSize, url))
  }

  function DecodeDownload(j: Json): Result<Download, Error>
  {
    var m :- AsObject(j);
    var url :- Required(m, "url", AsString);
    var size :- Required(m, "size", AsNat);
    var sha1 :- Required(m, "sha1", AsString);
    Ok(Download(url, size, sha1))
  }

  function DecodeDownloads(j: Json): Result<Downloads, Error>
  {
    var m :- AsObject(j);
    var client :- Required(m, "client", DecodeDownload);
    var server :- Optional(m, "server", DecodeDownload);
    Ok(Downloads(client, server))
  }

  function DecodeJavaVersion(j: Json): Result<JavaVersion, Error>
  {
    var m :- AsObject(j);
    var component :- Required(m, "component", AsString);
    var major :- Required(m, "majorVersion", AsU16);
    Ok(JavaVersion(component, major))
  }

  function DecodeArtifact(j: Json): Result<Artifact, Error>
  {
    var m :- AsObject(j);
    var url :- Required(m, "url", AsString);
    var path :- Required(m, "path", AsString);
    var sha1 :- Required(m, "sha1", AsString);
    Ok(Artifact(url, path, sha1))
  }

  function DecodeClassifiers(j: Json): Result<Classifiers, Error>
  {
    var m :- AsObject(j);
    var linux :- Optional(m, NativesLinuxKey, DecodeArtifact);
    var osx :- Optional(m, NativesOsxKey, DecodeArtifact);
    var windows :- Optional(m, NativesWindowsKey, DecodeArtifact);
    Ok(Classifiers(linux, osx, windows))
  }

  function DecodeLibraryDownload(j: Json): Result<LibraryDownload, Error>
  {
    var m :- AsObject(j);
    var artifact :- Optional(m, "artifact", DecodeArtifact);
    var classifiers :- Optional(m, "classifiers", DecodeClassifiers);
    Ok(LibraryDownload(artifact, classifiers))
  }

  function DecodeLibrary(j: Json): Result<Library, Error>
  {
    var m :- AsObject(j);
    var name :- Required(m, "name", AsString);
    var downloads :- Optional(m, "downloads", DecodeLibraryDownload);
    var natives :- Optional(m, "natives", (x: Json) => Ok(x));
    var rules :- Optional(m, "rules", DecodeRules);
    Ok(Library(name, downloads, natives, rules))
  }

  /** `serde_json::from_value::<Version>`: `arguments` and `javaVersion` fall back to their
      defaults when absent; every other field is required, unknown keys are ignored. */
  function DecodeVersion(j: Json): Result<Version, Error>
  {
    var m :- AsObject(j);
    var id :- Required(m, "id", AsString);
    var arguments :- Defaulted(m, "arguments", DecodeArguments, DefaultArguments());
    var assetIndex :- Required(m, "assetIndex", DecodeAssetIndex);
    var downloads :- Required(m, "downloads", DecodeDownloads);
    var javaVersion :- Defaulted(m, "javaVersion", DecodeJavaVersion, DefaultJavaVersion());
    var libraries :- Required(m, "libraries", x => AsList(x, DecodeLibrary));
    var mainClass :- Required(m, "mainClass", AsString);
    var versionType :- Required(m, "type", DecodeVersionType);
    Ok(Version(id, arguments, assetIndex, downloads, javaVersion, libraries, mainClass, versionType))
  }

  lemma {:induction false} DecodeVersionDefaults(j: Json)
    requires DecodeVersion(j).Ok?
    ensures "arguments" !in j.members ==> DecodeVersion(j).value.arguments == DefaultArguments()
    ensures "javaVersion" !in j.members ==> DecodeVersion(j).value.javaVersion == DefaultJavaVersion()
    ensures DecodeVersion(j).value.id == j.members["id"].s
  {
  }

  // ---------------------------------------------------------------- serde encoding

  function EncodeOption<T>(o: Option<T>, enc: T -> Json): Json
  {
    match o
    case None => Null
    case Some(v) => enc(v)
  }

  function EncodeOs(os: Os): Json
  {
    Object(map[
      "name" := EncodeOption(os.name, (n: OsName) => Str(OsNameName(n))),
      "arch" := EncodeOption(os.arch, (a: Arch) => Str(ArchName(a)))])
  }

  function EncodeRule(r: Rule): Json
  {
    Object(map["action" := Str(ActionName(r.action)), "os" := EncodeOption(r.os, EncodeOs)])
  }

  function EncodeRules(rs: seq<Rule>): (js: seq<Json>)
    ensures |js| == |rs| && forall i :: 0 <= i < |rs| ==> js[i] == EncodeRule(rs[i])
  {
    seq(|rs|, i requires 0 <= i < |rs| => EncodeRule(rs[i]))
  }

  function EncodeArgumentValue(v: ArgumentValue): Json
  {
    match v
    case One(s) => Str(s)
    case List(ss) => Array(seq(|ss|, i requires 0 <= i < |ss| => Str(ss[i])))
  }

  function EncodeArgument(a: Argument): Json
  {
    match a
    case Plain(s) => Str(s)
    case Ruled(ar) =>
      Object(map["rules" := Array(EncodeRules(ar.rules)), "value" := EncodeArgumentValue(ar.value)])
  }

  /** A decoded version's libraries are its `libraries` array, decoded item by item. */
  lemma DecodeVersionLibraries(j: Json)
    requires DecodeVersion(j).Ok?
    ensures j.Object? && "libraries" in j.members && j.members["libraries"].Array?
    ensures Items(j.members["libraries"].items, DecodeLibrary) == Ok(DecodeVersion(j).value.libraries)
  {
  }

  lemma RuleRoundTrip(r: Rule)
    ensures DecodeRule(EncodeRule(r)) == Ok(r)
  {
    var m := EncodeRule(r).members;
    assert Required(m, "action", DecodeAction) == Ok(r.action);
    if r.os.Some? {
      var os := r.os.value;
      var om := EncodeOs(os).members;
      if os.name.Some? {
        assert om["name"] == Str(OsNameName(os.name.value));
      }
      assert Optional(om, "name", DecodeOsName) == Ok(os.name);
      if os.arch.Some? {
        assert om["arch"] == Str(ArchName(os.arch.value));
        match os.arch.value
        case X86 => assert DecodeArch(Str("x86")) == Ok(X86);
      }
      assert Optional(om, "arch", DecodeArch) == Ok(os.arch);
      assert DecodeOs(EncodeOs(os)) == Ok(os);
    }
    assert Optional(m, "os", DecodeOs) == Ok(r.os);
  }

  lemma {:induction false} RulesRoundTrip(rs: seq<Rule>)
    ensures Items(EncodeRules(rs), DecodeRule) == Ok(rs)
  {
    if rs != [] {
      var js := EncodeRules(rs);
      RuleRoundTrip(rs[0]);
      RulesRoundTrip(rs[1..]);
      assert js[1..] == EncodeRules(rs[1..]);
      assert DecodeRule(js[0]) == Ok(rs[0]);
      assert Items(js, DecodeRule) == Ok([rs[0]] + rs[1..]);
      assert [rs[0]] + rs[1..] == rs;
    }
  }

  lemma {:induction false} TokensRoundTrip(ss: seq<string>)
    ensures Items(seq(|ss|, i requires 0 <= i < |ss| => Str(ss[i])), AsString) == Ok(ss)
  {
    if ss != [] {
      var js := seq(|ss|, i requires 0 <= i < |ss| => Str(ss[i]));
      TokensRoundTrip(ss[1..]);
      assert js[1..] == seq(|ss[1..]|, i requires 0 <= i < |ss[1..]| => Str(ss[1..][i]));
      assert AsString(js[0]) == Ok(ss[0]);
      assert Items(js, AsString) == Ok([ss[0]] + ss[1..]);
      assert [ss[0]] + ss[1..] == ss;
    }
  }

  /** Decoding an encoded argument gives it back: the untagged order (string first) never
      mistakes one variant for the other. */
  lemma ArgumentRoundTrip(a: Argument)
    ensures DecodeArgument(EncodeArgument(a)) == Ok(a)
  {
    if a.Ruled? {
      var ar := a.rule;
      RulesRoundTrip(ar.rules);
      if ar.value.List? {
        TokensRoundTrip(ar.value.tokens);
      }
      assert DecodeArgumentRule(EncodeArgument(a)) == Ok(ar);
    }
  }
}
