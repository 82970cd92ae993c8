/** `launch_minecraft_version` (crates/smallauncher_lib/src/launch.rs:36-75): resolve the
    installed version, extract its natives, then start `<jre>/<component>/bin/java` in the game
    directory with the JVM arguments, the main class and the game arguments. Starting the
    process is not modelled: the result is the command that would be spawned. */
module Launch {
  import opened Wrappers
  import opened Errors
  import opened Paths
  import opened Store
  import opened Layout
  import opened Rules
  import opened Outside
  import opened Resolve
  import opened Natives
  import opened Args
  import opened Auth
  import Meta
  import Fs

  datatype Command = Command(program: Path, cwd: Path, args: seq<string>)

  /** `<jre>/<component>/bin/java`, or `java.exe` on Windows. */
  function JavaBinary(jre: Path, component: string, host: Host): Path
  {
    jre + [component, "bin", if IsUnix(host) then "java" else "java.exe"]
  }

  /** The command line for a resolved version (lines 59-70). */
  function CommandFor(meta: Meta.Version, game: Path, jre: Path, account: Account, host: Host): Command
  {
    Command(JavaBinary(jre, meta.javaVersion.component, host), game,
            JvmArgs(meta, game, host) + [meta.mainClass] + GameArgs(meta, game, account, host))
  }

  /** The files after the call, how it ended, and the command when it got that far. */
  datatype Launched = Launched(disk: Disk, status: Status, command: Option<Command>)

  /** The value of `launch_minecraft_version` up to the spawn. */
  function Launch(d: Disk, codec: Codec, game: Path, jre: Path, name: string, account: Account, host: Host): (r: Launched)
    ensures r.command.Some? <==> r.status.Done?
  {
    match ResolveVersion(d, codec.parseJson, game, name)
    case Err(e) => Launched(d, Failed(e), None)
    case Ok(meta) =>
      var x := ExtractAll(d, host, game, meta.libraries, codec.unzip);
      if !x.status.Done? then Launched(x.disk, x.status, None)
      else Launched(x.disk, Done, Some(CommandFor(meta, game, jre, account, host)))
  }

  /** `launch_minecraft_version` as written. */
  method LaunchMinecraftVersion(fs: Fs.FileSystem, codec: Codec, game: Path, jre: Path, name: string,
                                account: Account, host: Host) returns (s: Status, command: Option<Command>)
    modifies fs
    ensures Launched(fs.State(), s, command) == Launch(old(fs.State()), codec, game, jre, name, account, host)
  {
    var resolved := ResolveVersion(fs.State(), codec.parseJson, game, name);
    if resolved.Err? {
      return Failed(resolved.error), None;
    }
    var meta := resolved.value;
    s := ExtractNatives(fs, host, game, meta.libraries, codec.unzip);
    if s != Done {
      return s, None;
    }
    var mainClass := meta.mainClass;
    var javaComponent := meta.javaVersion.component;
    var jvmArgs := GenerateJvmArgs(meta, game, host);
    var gameArgs := GenerateGameArgs(meta, game, account, host);
    var jreBin := jre + [javaComponent, "bin", if IsUnix(host) then "java" else "java.exe"];
    command := Some(Command(jreBin, game, jvmArgs + [mainClass] + gameArgs));
  }

  // ---------------------------------------------------------------- properties

  /** A launched command runs the version's Java component in the game directory; its argument
      vector holds the JVM arguments, then the main class, then the game arguments, and ends with
      `--userProperties {}`. */
  lemma LaunchedCommand(d: Disk, codec: Codec, game: Path, jre: Path, name: string, account: Account, host: Host)
    requires Launch(d, codec, game, jre, name, account, host).status.Done?
    ensures ResolveVersion(d, codec.parseJson, game, name).Ok?
    ensures var meta := ResolveVersion(d, codec.parseJson, game, name).value;
            var c := Launch(d, codec, game, jre, name, account, host).command.value;
            var n := |JvmArgs(meta, game, host)|;
            && c.program[..|jre|] == jre && c.program[|jre|] == meta.javaVersion.component
            && c.program == jre + [meta.javaVersion.component, "bin", if IsUnix(host) then "java" else "java.exe"]
            && c.cwd == game
            && c.args[..n] == JvmArgs(meta, game, host)
            && c.args[n] == meta.mainClass
            && c.args[n + 1..] == GameArgs(meta, game, account, host)
            && c.args[|c.args| - 2..] == ["--userProperties", "{}"]
  {
    var meta := ResolveVersion(d, codec.parseJson, game, name).value;
    var c := CommandFor(meta, game, jre, account, host);
    var g := GameArgs(meta, game, account, host);
    assert g[|g| - 2..] == ["--userProperties", "{}"];
    assert c.args[|c.args| - 2..] == g[|g| - 2..];
  }

  /** Launching writes nothing outside `bin`: every other file, the version files and libraries
      included, is as it was, whether the launch succeeds or not. */
  lemma LaunchOnlyWritesNatives(d: Disk, codec: Codec, game: Path, jre: Path, name: string, account: Account,
                                host: Host, q: Path)
    requires !InNativesDir(game, q)
    ensures var r := Launch(d, codec, game, jre, name, account, host).disk;
            (q in r.files <==> q in d.files) && (q in d.files ==> r.files[q] == d.files[q])
  {
    match ResolveVersion(d, codec.parseJson, game, name)
    case Err(_) =>
    case Ok(meta) => ExtractAllFrame(d, host, game, meta.libraries, codec.unzip, q);
  }
}
