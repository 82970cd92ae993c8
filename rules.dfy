/** The host platform and the rule evaluator shared by the classpath builder
    (crates/smallauncher_lib/src/launch.rs:207-245) and the installer
    (crates/smallauncher_lib/src/download.rs:103-152).

    The source fixes the host at compile time through `cfg` constants (`OS_NAME`, `ARCH`,
    `SEPARATOR`); here the host is a value. Only Linux and Windows define `OS_NAME`: on macOS the
    identifier `OS_NAME` in the pattern `Os { name: OS_NAME, arch: ARCH }` is not a constant but a
    fresh binding, so on that target a rule's `name` is not compared at all. */
module Rules {
  import opened Wrappers
  import opened Meta

  datatype TargetOs = TargetLinux | TargetWindows | TargetMacOs

  /** `arch` is `Some(X86)` on a 32-bit x86 target and `None` on every other one. */
  datatype Host = Host(os: TargetOs, arch: Option<Arch>)

  /** The `OS_NAME` constant, which only Linux and Windows targets define. */
  function OsNameConst(t: TargetOs): Option<Option<OsName>>
  {
    match t
    case TargetLinux => Some(Some(Linux))
    case TargetWindows => Some(Some(Windows))
    case TargetMacOs => None
  }

  /** Whether the pattern `Some(Os { name: OS_NAME, arch: ARCH })` matches a rule's `os`. */
  predicate OsMatches(os: Os, host: Host)
  {
    && os.arch == host.arch
    && (OsNameConst(host.os).Some? ==> os.name == OsNameConst(host.os).value)
  }

  /** A rule applies to the host when it names no `os` or its `os` matches the host's. */
  predicate RuleMatches(r: Rule, host: Host)
  {
    r.os.None? || OsMatches(r.os.value, host)
  }

  /** The six-arm match run over the rules in order: a matching `Disallow` or a non-matching
      `Allow` excludes the item at once (`continue 'l`); every other rule lets evaluation go on. */
  function Allows(rules: seq<Rule>, host: Host): bool
  {
    if rules == [] then true
    else
      var r := rules[0];
      if RuleMatches(r, host) && r.action == Disallow then false
      else if !RuleMatches(r, host) && r.action == Allow then false
      else Allows(rules[1..], host)
  }

  /** The loop over the rules as the source runs it: the first rule that excludes the item
      ends the loop (`continue 'l` in the enclosing loop). */
  method CheckRules(rules: seq<Rule>, host: Host) returns (allowed: bool)
    ensures allowed == Allows(rules, host)
  {
    var i := 0;
    while i < |rules|
      invariant 0 <= i <= |rules|
      invariant Allows(rules, host) == Allows(rules[i..], host)
    {
      var r := rules[i];
      assert rules[i..][1..] == rules[i + 1..];
      if r.os.Some? && OsMatches(r.os.value, host) {
        if r.action == Disallow {
          return false;
        }
      } else if r.os.None? {
        if r.action == Disallow {
          return false;
        }
      } else if r.action == Allow {
        return false;
      }
      i := i + 1;
    }
    return true;
  }

  /** `rules: Option<Vec<Rule>>`: no rules at all includes the item. */
  function AllowsOpt(rules: Option<seq<Rule>>, host: Host): bool
  {
    rules.None? || Allows(rules.value, host)
  }

  /** The early exit decides nothing on its own: an item is included exactly when every rule's
      action agrees with whether the rule matches (Allow when it matches, Disallow when not). */
  lemma {:induction false} AllowsIff(rules: seq<Rule>, host: Host)
    ensures Allows(rules, host) <==>
            forall i :: 0 <= i < |rules| ==> (rules[i].action == Allow <==> RuleMatches(rules[i], host))
  {
    if rules != [] {
      AllowsIff(rules[1..], host);
      assert forall i :: 1 <= i < |rules| ==> rules[i] == rules[1..][i - 1];
    }
  }

  /** Hence the verdict does not depend on the order of the rules. */
  lemma AllowsOrderIrrelevant(rules: seq<Rule>, other: seq<Rule>, host: Host)
    requires multiset(rules) == multiset(other)
    ensures Allows(rules, host) == Allows(other, host)
  {
    AllowsIff(rules, host);
    AllowsIff(other, host);
    forall i | 0 <= i < |other|
      ensures other[i] in multiset(rules)
    {
      assert other[i] in multiset(other);
    }
    forall i | 0 <= i < |rules|
      ensures rules[i] in multiset(other)
    {
      assert rules[i] in multiset(rules);
    }
  }

  /** An `os` without `arch` is not a wildcard for the architecture: on a 32-bit x86 host it does
      not match, so an `Allow` scoped to it excludes the item there. */
  lemma AbsentArchIsNotWildcard(name: OsName, host: Host)
    requires host.arch == Some(X86)
    ensures !Allows([Rule(Allow, Some(Os(Some(name), None)))], host)
  {
  }

  /** The five cases of the evaluator for a Linux host without architecture constant. */
  lemma LinuxExamples()
    ensures var h := Host(TargetLinux, None);
      && Allows([Rule(Allow, Some(Os(Some(Linux), None)))], h)
      && !Allows([Rule(Allow, Some(Os(Some(Windows), None)))], h)
      && Allows([Rule(Disallow, Some(Os(Some(Windows), None)))], h)
      && !Allows([Rule(Disallow, None)], h)
      && AllowsOpt(None, h) && Allows([], h)
  {
  }

  /** On macOS the rule's `name` is never consulted (see the module comment). */
  lemma MacOsIgnoresName(name: Option<OsName>, host: Host)
    requires host.os == TargetMacOs
    ensures RuleMatches(Rule(Allow, Some(Os(name, host.arch))), host)
  {
  }

  /** The classpath separator: ':' on Unix targets, ';' on Windows. */
  function ClasspathSeparator(host: Host): string
  {
    if host.os == TargetWindows then ";" else ":"
  }

  /** The character `PathBuf` puts between components. */
  function PathSeparator(host: Host): char
  {
    if host.os == TargetWindows then '\\' else '/'
  }

  predicate IsUnix(host: Host)
  {
    host.os != TargetWindows
  }

  /** The classifier the host's `cfg` selects: `natives-linux`, `natives-windows` or `natives-osx`. */
  function HostNative(c: Classifiers, host: Host): Option<Artifact>
  {
    match host.os
    case TargetLinux => c.nativesLinux
    case TargetWindows => c.nativesWindows
    case TargetMacOs => c.nativesOsx
  }
}
