/** `generate_game_args` and `generate_jvm_args` (crates/smallauncher_lib/src/launch.rs:119-204):
    every plain-string argument is either replaced as a whole by the value of the placeholder it
    is, dropped, or copied as it is; rule-gated `Argument::Object` entries are always dropped. */
module Args {
  import opened Wrappers
  import opened Paths
  import opened Layout
  import opened Rules
  import opened Meta
  import opened Auth
  import opened Classpath

  const ClientId := "42"
  const LauncherName := "miniLauncher"
  const LauncherVersion := "42"

  /** Game-argument tokens that are replaced by a value. */
  const GamePlaceholders: set<string> := {
    "${clientid}", "${auth_player_name}", "${auth_uuid}", "${user_type}", "${auth_access_token}",
    "${game_directory}", "${version_name}", "${assets_root}", "${assets_index_name}", "${version_type}" }

  /** Game-argument tokens that are left out. */
  const Dropped: set<string> := { "--xuid", "${auth_xuid}" }

  /** JVM-argument tokens that are replaced by a value. */
  const JvmPlaceholders: set<string> := {
    "-Dminecraft.launcher.version=${launcher_version}", "-Dminecraft.launcher.brand=${launcher_name}",
    "-Djava.library.path=${natives_directory}", "-Djna.tmpdir=${natives_directory}",
    "-Dorg.lwjgl.system.SharedLibraryExtractPath=${natives_directory}",
    "-Dio.netty.native.workdir=${natives_directory}", "${classpath}" }

  // ---------------------------------------------------------------- game arguments

  /** What one plain game argument becomes: `None` when it is dropped. */
  function GameArg(token: string, meta: Version, game: Path, account: Account, host: Host): Option<string>
  {
    if token == "${clientid}" then Some(ClientId)
    else if token == "${auth_player_name}" then Some(account.name)
    else if token == "${auth_uuid}" then Some(account.uuid)
    else if token == "${user_type}" then Some(if account.Microsoft? then "msa" else "")
    else if token == "${auth_access_token}" then Some(if account.Microsoft? then account.accessToken else "")
    else if token == "${game_directory}" then Some(Render(game, PathSeparator(host)))
    else if token == "${version_name}" then Some(meta.id)
    else if token == "${assets_root}" then Some(Render(AssetsRoot(game), PathSeparator(host)))
    else if token == "${assets_index_name}" then Some(meta.assetIndex.id)
    else if token == "${version_type}" then Some(Display(meta.versionType))
    else if token == "--xuid" || token == "${auth_xuid}" then None
    else Some(token)
  }

  /** Exactly the two xuid tokens are dropped; every token that is not a placeholder is kept
      as it is. */
  lemma GameArgCases(token: string, meta: Version, game: Path, account: Account, host: Host)
    ensures GameArg(token, meta, game, account, host).None? <==> token in Dropped
    ensures token !in GamePlaceholders && token !in Dropped ==> GameArg(token, meta, game, account, host) == Some(token)
  {
  }

  /** What one argument yields: nothing for a rule-gated one or a dropped token. */
  function GamePiece(x: Argument, meta: Version, game: Path, account: Account, host: Host): seq<string>
  {
    match x
    case Plain(t) => (match GameArg(t, meta, game, account, host) case None => [] case Some(v) => [v])
    case Ruled(_) => []
  }

  /** The game arguments a list of arguments yields, in order. */
  function GameArgsOf(xs: seq<Argument>, meta: Version, game: Path, account: Account, host: Host): seq<string>
  {
    if xs == [] then [] else GamePiece(xs[0], meta, game, account, host) + GameArgsOf(xs[1..], meta, game, account, host)
  }

  /** The value of `generate_game_args`: the version's game arguments, then `--userProperties {}`. */
  function GameArgs(meta: Version, game: Path, account: Account, host: Host): seq<string>
  {
    GameArgsOf(meta.arguments.game, meta, game, account, host) + ["--userProperties", "{}"]
  }

  /** `generate_game_args` as written: one push per kept argument, then the two trailing ones. */
  method GenerateGameArgs(meta: Version, game: Path, account: Account, host: Host) returns (args: seq<string>)
    ensures args == GameArgs(meta, game, account, host)
    ensures |args| >= 2 && args[|args| - 2..] == ["--userProperties", "{}"]
  {
    args := [];
    var xs := meta.arguments.game;
    for i := 0 to |xs|
      invariant args == GameArgsOf(xs[..i], meta, game, account, host)
    {
      GameArgsOfSnoc(xs, i, meta, game, account, host);
      match xs[i]
      case Plain(t) =>
        var v := GameArg(t, meta, game, account, host);
        if v.Some? {
          args := args + [v.value];
        }
      case Ruled(_) =>
    }
    assert xs[..|xs|] == xs;
    args := args + ["--userProperties"];
    args := args + ["{}"];
  }

  lemma GameArgsOfSnoc(xs: seq<Argument>, i: nat, meta: Version, game: Path, account: Account, host: Host)
    requires i < |xs|
    ensures GameArgsOf(xs[..i + 1], meta, game, account, host)
         == GameArgsOf(xs[..i], meta, game, account, host) + GamePiece(xs[i], meta, game, account, host)
  {
    assert xs[..i + 1] == xs[..i] + [xs[i]];
    GameArgsOfAppend(xs[..i], [xs[i]], meta, game, account, host);
    assert GameArgsOf([xs[i]], meta, game, account, host) == GamePiece(xs[i], meta, game, account, host) + [];
  }

  lemma {:induction false} GameArgsOfAppend(xs: seq<Argument>, ys: seq<Argument>, meta: Version, game: Path, account: Account, host: Host)
    ensures GameArgsOf(xs + ys, meta, game, account, host)
         == GameArgsOf(xs, meta, game, account, host) + GameArgsOf(ys, meta, game, account, host)
  {
    if xs != [] {
      assert (xs + ys)[1..] == xs[1..] + ys;
      GameArgsOfAppend(xs[1..], ys, meta, game, account, host);
    } else {
      assert xs + ys == ys;
    }
  }

  /** A rule-gated argument contributes nothing, wherever it stands. */
  lemma RuledGameArgumentDropped(xs: seq<Argument>, r: ArgumentRule, ys: seq<Argument>,
                                 meta: Version, game: Path, account: Account, host: Host)
    ensures GameArgsOf(xs + [Ruled(r)] + ys, meta, game, account, host)
         == GameArgsOf(xs + ys, meta, game, account, host)
  {
    GameArgsOfAppend(xs + [Ruled(r)], ys, meta, game, account, host);
    GameArgsOfAppend(xs, [Ruled(r)], meta, game, account, host);
    GameArgsOfAppend(xs, ys, meta, game, account, host);
    assert GameArgsOf([Ruled(r)], meta, game, account, host) == [];
  }

  function Tokens(xs: seq<Argument>): seq<string>
    requires forall i :: 0 <= i < |xs| ==> xs[i].Plain?
  {
    if xs == [] then [] else [xs[0].token] + Tokens(xs[1..])
  }

  /** Plain arguments that are neither placeholders nor dropped are copied unchanged, in order. */
  lemma {:induction false} GameArgsCopyLiterals(xs: seq<Argument>, meta: Version, game: Path, account: Account, host: Host)
    requires forall i :: 0 <= i < |xs| ==> xs[i].Plain? && xs[i].token !in GamePlaceholders && xs[i].token !in Dropped
    ensures GameArgsOf(xs, meta, game, account, host) == Tokens(xs)
  {
    if xs != [] {
      GameArgCases(xs[0].token, meta, game, account, host);
      GameArgsCopyLiterals(xs[1..], meta, game, account, host);
    }
  }

  /** A list of plain arguments none of which is dropped maps one to one. */
  lemma {:induction false} GameArgsOfKept(xs: seq<Argument>, meta: Version, game: Path, account: Account, host: Host)
    requires forall i :: 0 <= i < |xs| ==> xs[i].Plain? && xs[i].token !in Dropped
    ensures var r := GameArgsOf(xs, meta, game, account, host);
            |r| == |xs| && forall i :: 0 <= i < |xs| ==> r[i] == GameArg(xs[i].token, meta, game, account, host).value
  {
    if xs != [] {
      GameArgCases(xs[0].token, meta, game, account, host);
      GameArgsOfKept(xs[1..], meta, game, account, host);
      var r := GameArgsOf(xs, meta, game, account, host);
      assert forall i :: 1 <= i < |xs| ==> r[i] == GameArgsOf(xs[1..], meta, game, account, host)[i - 1] && xs[i] == xs[1..][i - 1];
    }
  }

  /** With the default arguments the game sees this exact list; an offline account passes empty
      `--accessToken` and `--userType` values, a Microsoft account its token and `msa`. */
  lemma DefaultGameArgs(meta: Version, game: Path, account: Account, host: Host)
    requires meta.arguments == DefaultArguments()
    ensures GameArgs(meta, game, account, host) ==           // `--xuid ${auth_xuid}` disappear
      [ "--username", account.name,
        "--version", meta.id,
        "--gameDir", Render(game, PathSeparator(host)),
        "--assetsDir", Render(AssetsRoot(game), PathSeparator(host)) ] +
      [ "--assetIndex", meta.assetIndex.id,
        "--uuid", account.uuid,
        "--accessToken", (if account.Microsoft? then account.accessToken else ""),
        "--clientId", ClientId ] +
      [ "--userType", (if account.Microsoft? then "msa" else ""),
        "--versionType", Display(meta.versionType) ] +
      [ "--userProperties", "{}" ]
  {
    GameArgsOfAppend(DefaultGameHead, DefaultGameMiddle, meta, game, account, host);
    GameArgsOfAppend(DefaultGameHead + DefaultGameMiddle, DefaultGameXuid, meta, game, account, host);
    GameArgsOfAppend(DefaultGameHead + DefaultGameMiddle + DefaultGameXuid, DefaultGameTail, meta, game, account, host);
    DefaultGameArgsXuid(meta, game, account, host);
    var hm := GameArgsOf(DefaultGameHead + DefaultGameMiddle, meta, game, account, host);
    assert hm + GameArgsOf(DefaultGameXuid, meta, game, account, host) == hm;
    DefaultGameArgsHead(meta, game, account, host);
    DefaultGameArgsMiddle(meta, game, account, host);
    DefaultGameArgsTail(meta, game, account, host);
  }

  lemma DefaultGameArgsHead(meta: Version, game: Path, account: Account, host: Host)
    ensures GameArgsOf(DefaultGameHead, meta, game, account, host) ==
      [ "--username", account.name,
        "--version", meta.id,
        "--gameDir", Render(game, PathSeparator(host)),
        "--assetsDir", Render(AssetsRoot(game), PathSeparator(host)) ]
  {
    GameArgsOfKept(DefaultGameHead, meta, game, account, host);
  }

  lemma DefaultGameArgsMiddle(meta: Version, game: Path, account: Account, host: Host)
    ensures GameArgsOf(DefaultGameMiddle, meta, game, account, host) ==
      [ "--assetIndex", meta.assetIndex.id,
        "--uuid", account.uuid,
        "--accessToken", (if account.Microsoft? then account.accessToken else ""),
        "--clientId", ClientId ]
  {
    GameArgsOfKept(DefaultGameMiddle, meta, game, account, host);
  }

  /** Arguments that are all rule-gated or dropped yield nothing. */
  lemma {:induction false} GameArgsOfNone(xs: seq<Argument>, meta: Version, game: Path, account: Account, host: Host)
    requires forall i :: 0 <= i < |xs| ==> xs[i].Ruled? || xs[i].token in Dropped
    ensures GameArgsOf(xs, meta, game, account, host) == []
  {
    if xs != [] {
      GameArgsOfNone(xs[1..], meta, game, account, host);
    }
  }

  lemma DefaultGameArgsXuid(meta: Version, game: Path, account: Account, host: Host)
    ensures GameArgsOf(DefaultGameXuid, meta, game, account, host) == []
  {
    GameArgsOfNone(DefaultGameXuid, meta, game, account, host);
  }

  lemma DefaultGameArgsTail(meta: Version, game: Path, account: Account, host: Host)
    ensures GameArgsOf(DefaultGameTail, meta, game, account, host) ==
      [ "--userType", (if account.Microsoft? then "msa" else ""),
        "--versionType", Display(meta.versionType) ]
  {
    GameArgsOfKept(DefaultGameTail, meta, game, account, host);
  }

  // ---------------------------------------------------------------- JVM arguments

  /** What one plain JVM argument becomes. */
  function JvmArg(token: string, natives: string, classpath: string): (r: string)
    ensures token !in JvmPlaceholders ==> r == token
  {
    if token == "-Dminecraft.launcher.version=${launcher_version}" then "-Dminecraft.launcher.version=" + LauncherVersion
    else if token == "-Dminecraft.launcher.brand=${launcher_name}" then "-Dminecraft.launcher.brand=" + LauncherName
    else if token == "-Djava.library.path=${natives_directory}" then "-Djava.library.path=" + natives
    else if token == "-Djna.tmpdir=${natives_directory}" then "-Djna.tmpdir=" + natives
    else if token == "-Dorg.lwjgl.system.SharedLibraryExtractPath=${natives_directory}" then "-Dorg.lwjgl.system.SharedLibraryExtractPath=" + natives
    else if token == "-Dio.netty.native.workdir=${natives_directory}" then "-Dio.netty.native.workdir=" + natives
    else if token == "${classpath}" then classpath
    else token
  }

  /** What one argument yields: nothing for a rule-gated one. */
  function JvmPiece(x: Argument, natives: string, classpath: string): seq<string>
  {
    match x
    case Plain(t) => [JvmArg(t, natives, classpath)]
    case Ruled(_) => []
  }

  function JvmArgsOf(xs: seq<Argument>, natives: string, classpath: string): (r: seq<string>)
    ensures |r| <= |xs|
  {
    if xs == [] then [] else JvmPiece(xs[0], natives, classpath) + JvmArgsOf(xs[1..], natives, classpath)
  }

  lemma {:induction false} JvmArgsOfAppend(xs: seq<Argument>, ys: seq<Argument>, natives: string, classpath: string)
    ensures JvmArgsOf(xs + ys, natives, classpath) == JvmArgsOf(xs, natives, classpath) + JvmArgsOf(ys, natives, classpath)
  {
    if xs != [] {
      assert (xs + ys)[1..] == xs[1..] + ys;
      JvmArgsOfAppend(xs[1..], ys, natives, classpath);
    } else {
      assert xs + ys == ys;
    }
  }

  lemma JvmArgsOfSnoc(xs: seq<Argument>, i: nat, natives: string, classpath: string)
    requires i < |xs|
    ensures JvmArgsOf(xs[..i + 1], natives, classpath) == JvmArgsOf(xs[..i], natives, classpath) + JvmPiece(xs[i], natives, classpath)
  {
    assert xs[..i + 1] == xs[..i] + [xs[i]];
    JvmArgsOfAppend(xs[..i], [xs[i]], natives, classpath);
    assert JvmArgsOf([xs[i]], natives, classpath) == JvmPiece(xs[i], natives, classpath) + [];
  }

  /** The value of `generate_jvm_args`. */
  function JvmArgs(meta: Version, game: Path, host: Host): seq<string>
  {
    JvmArgsOf(meta.arguments.jvm, Render(NativesDir(game), PathSeparator(host)), ClassPath(meta, game, host))
  }

  /** `generate_jvm_args` as written. */
  method GenerateJvmArgs(meta: Version, game: Path, host: Host) returns (args: seq<string>)
    ensures args == JvmArgs(meta, game, host)
  {
    args := [];
    var nativesDir := Render(NativesDir(game), PathSeparator(host));
    var classPaths := GetClassPaths(meta, game, host);
    var xs := meta.arguments.jvm;
    for i := 0 to |xs|
      invariant args == JvmArgsOf(xs[..i], nativesDir, classPaths)
    {
      JvmArgsOfSnoc(xs, i, nativesDir, classPaths);
      match xs[i]
      case Plain(t) => args := args + [JvmArg(t, nativesDir, classPaths)];
      case Ruled(_) =>
    }
    assert xs[..|xs|] == xs;
  }

  /** One JVM argument out per plain argument in, position by position. */
  lemma {:induction false} JvmArgsOfPlain(xs: seq<Argument>, natives: string, classpath: string)
    requires forall i :: 0 <= i < |xs| ==> xs[i].Plain?
    ensures var r := JvmArgsOf(xs, natives, classpath);
            |r| == |xs| && forall i :: 0 <= i < |xs| ==> r[i] == JvmArg(xs[i].token, natives, classpath)
  {
    if xs != [] {
      assert forall i :: 0 <= i < |xs[1..]| ==> xs[1..][i] == xs[i + 1];
      JvmArgsOfPlain(xs[1..], natives, classpath);
      var rest := JvmArgsOf(xs[1..], natives, classpath);
      var r := JvmArgsOf(xs, natives, classpath);
      assert r == [JvmArg(xs[0].token, natives, classpath)] + rest;
      forall i | 1 <= i < |xs| ensures r[i] == JvmArg(xs[i].token, natives, classpath) {
        assert r[i] == rest[i - 1] && xs[1..][i - 1] == xs[i];
      }
    }
  }

  /** With the default arguments the JVM sees this exact list. */
  lemma DefaultJvmArgs(meta: Version, game: Path, host: Host)
    requires meta.arguments == DefaultArguments()
    ensures var natives := Render(NativesDir(game), PathSeparator(host));
      JvmArgs(meta, game, host) ==
      [ "-Djava.library.path=" + natives,
        "-Djna.tmpdir=" + natives,
        "-Dorg.lwjgl.system.SharedLibraryExtractPath=" + natives,
        "-Dio.netty.native.workdir=" + natives,
        "-Dminecraft.launcher.brand=" + LauncherName,
        "-Dminecraft.launcher.version=" + LauncherVersion,
        "-cp", ClassPath(meta, game, host) ]
  {
    JvmArgsOfPlain(DefaultJvm, Render(NativesDir(game), PathSeparator(host)), ClassPath(meta, game, host));
  }
}
