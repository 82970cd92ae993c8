/** The installer's effect on disk as a sequence of steps. Every block of
    `download_minecraft_version` (crates/smallauncher_lib/src/download.rs:14-175) is a list of the
    steps below, run in order and stopped by the first step that does not end `Done`; the `?`
    operator is that stop. */
module Plan {
  import opened Wrappers
  import opened Errors
  import opened Paths
  import opened Store

  datatype Op =
    | MakeDirs(path: Path)                                             // `fs::create_dir_all(path)?`
    | Create(path: Path)                                               // `create_or_open_file(path)?`
    | Write(path: Path, data: Bytes)                                   // `file.write(data)?` on that handle
    | Ensure(path: Path, sha1: string, url: string, mode755: bool)     // the hash-gated download
    | WriteIfAbsent(path: Path, data: Bytes)                           // `if !exists { fs::write(..)? }`
    | Abort(error: Error)                                              // `return Err(..)` / a failed `?`
    | Crash                                                            // a panic

  /** The hash-gated download shared by the client jar, the runtime files, the libraries and the
      assets: nothing happens when the file on disk already has the expected SHA-1; otherwise
      the file is created (or truncated), the body fetched from `url` is written into it and, if
      asked, it is made executable. A failed fetch leaves the file empty. */
  function EnsureFile(d: Disk, path: Path, sha1: string, url: string, mode755: bool,
                      fetch: string -> Result<Bytes, Error>, sha1Hex: Bytes -> string): Effect
  {
    if Valid(d, sha1, path, sha1Hex) then Effect(d, Done)
    else
      var c := CreateOrOpenFile(d, path);
      if !c.status.Done? then c
      else match fetch(url)
        case Err(err) => Effect(c.disk, Failed(err))
        case Ok(body) =>
          var w := Store.Write(c.disk, path, body).disk;
          Effect(if mode755 then SetMode755(w, path) else w, Done)
  }

  /** What the hash-gated download promises: nothing happens when the file on disk already
      has the expected SHA-1; a step that has to download and ends `Done` leaves exactly the
      fetched bytes at the path; no other file appears, disappears or changes; failures are `Io`
      or the fetch's own error; it never panics; the file is marked executable exactly when it
      was downloaded with `mode755`, and no other file's mode changes. */
  lemma EnsureFileEffect(d: Disk, path: Path, sha1: string, url: string, mode755: bool,
                         fetch: string -> Result<Bytes, Error>, sha1Hex: Bytes -> string, e: Effect)
    requires e == EnsureFile(d, path, sha1, url, mode755, fetch, sha1Hex)
    ensures Valid(d, sha1, path, sha1Hex) ==> e == Effect(d, Done)
    ensures e.status.Done? && !Valid(d, sha1, path, sha1Hex) ==>
              fetch(url).Ok? && path in e.disk.files && e.disk.files[path] == fetch(url).value
    ensures e.status.Done? ==> forall q :: q != path ==> (q in e.disk.files <==> q in d.files)
    ensures e.status.Done? ==> forall q :: q != path && q in d.files ==> e.disk.files[q] == d.files[q]
    ensures e.status.Failed? ==> e.status.error == Io || fetch(url) == Err(e.status.error)
    ensures !e.status.Panicked?
    ensures e.disk.exec == (if e.status.Done? && !Valid(d, sha1, path, sha1Hex) && mode755 then d.exec + {path} else d.exec)
  {
  }

  function Step(d: Disk, op: Op, fetch: string -> Result<Bytes, Error>, sha1Hex: Bytes -> string): Effect
  {
    match op
    case MakeDirs(p) => CreateDirAll(d, p)
    case Create(p) => CreateOrOpenFile(d, p)
    case Write(p, data) => Store.Write(d, p, data)
    case Ensure(p, h, u, m) => EnsureFile(d, p, h, u, m, fetch, sha1Hex)
    case WriteIfAbsent(p, data) => if Exists(d, p) then Effect(d, Done) else WriteNew(d, p, data)
    case Abort(err) => Effect(d, Failed(err))
    case Crash => Effect(d, Panicked)
  }

  /** Run the steps in order; the first step that does not end `Done` ends the run. */
  function Run(d: Disk, ops: seq<Op>, fetch: string -> Result<Bytes, Error>, sha1Hex: Bytes -> string): Effect
    decreases |ops|
  {
    if ops == [] then Effect(d, Done)
    else
      var e := Step(d, ops[0], fetch, sha1Hex);
      if !e.status.Done? then e else Run(e.disk, ops[1..], fetch, sha1Hex)
  }

  /** One step of `Run`, as a single equation. */
  lemma RunCons(d: Disk, ops: seq<Op>, fetch: string -> Result<Bytes, Error>, sha1Hex: Bytes -> string)
    requires ops != []
    ensures Run(d, ops, fetch, sha1Hex) ==
            (var e := Step(d, ops[0], fetch, sha1Hex); if e.status.Done? then Run(e.disk, ops[1..], fetch, sha1Hex) else e)
  {
  }

  /** A single step runs as that step. */
  lemma RunSingle(d: Disk, op: Op, fetch: string -> Result<Bytes, Error>, sha1Hex: Bytes -> string)
    ensures Run(d, [op], fetch, sha1Hex) == Step(d, op, fetch, sha1Hex)
  {
    assert [op][1..] == [];
  }

  /** Running a concatenation is running its halves one after the other. */
  lemma {:induction false} RunAppend(d: Disk, a: seq<Op>, b: seq<Op>, fetch: string -> Result<Bytes, Error>, sha1Hex: Bytes -> string)
    ensures Run(d, a + b, fetch, sha1Hex) ==
            (var e := Run(d, a, fetch, sha1Hex); if e.status.Done? then Run(e.disk, b, fetch, sha1Hex) else e)
    decreases |a|
  {
    if a == [] {
      assert a + b == b;
    } else {
      assert (a + b)[0] == a[0];
      assert (a + b)[1..] == a[1..] + b;
      var e := Step(d, a[0], fetch, sha1Hex);
      if e.status.Done? {
        RunAppend(e.disk, a[1..], b, fetch, sha1Hex);
      }
    }
  }

  // ---------------------------------------------------------------- every step keeps the tree

  lemma StepTree(d: Disk, op: Op, fetch: string -> Result<Bytes, Error>, sha1Hex: Bytes -> string)
    requires Tree(d)
    ensures Tree(Step(d, op, fetch, sha1Hex).disk)
  {
    match op
    case MakeDirs(p) => CreateDirAllTree(d, p);
    case Create(p) => CreateOrOpenFileTree(d, p);
    case Write(p, data) => WriteTree(d, p, data);
    case Ensure(p, h, u, m) =>
      if !Valid(d, h, p, sha1Hex) {
        CreateOrOpenFileTree(d, p);
        var c := CreateOrOpenFile(d, p);
        if c.status.Done? && fetch(u).Ok? {
          WriteTree(c.disk, p, fetch(u).value);
        }
      }
    case WriteIfAbsent(p, data) => WriteNewTree(d, p, data);
    case Abort(_) =>
    case Crash =>
  }

  lemma {:induction false} RunTree(d: Disk, ops: seq<Op>, fetch: string -> Result<Bytes, Error>, sha1Hex: Bytes -> string)
    requires Tree(d)
    ensures Tree(Run(d, ops, fetch, sha1Hex).disk)
    decreases |ops|
  {
    if ops != [] {
      StepTree(d, ops[0], fetch, sha1Hex);
      var e := Step(d, ops[0], fetch, sha1Hex);
      if e.status.Done? {
        RunTree(e.disk, ops[1..], fetch, sha1Hex);
      }
    }
  }

  // ---------------------------------------------------------------- what a finished run leaves

  /** The server sends what the metadata promises: a body fetched for a download step has the
      SHA-1 the step checks for. */
  predicate Consistent(ops: seq<Op>, fetch: string -> Result<Bytes, Error>, sha1Hex: Bytes -> string)
  {
    forall i :: 0 <= i < |ops| && ops[i].Ensure? && fetch(ops[i].url).Ok? ==>
      sha1Hex(fetch(ops[i].url).value) == ops[i].sha1
  }

  /** What a step leaves behind that running it again would find: a verified file for a
      download, the directory chain for `create_dir_all`. */
  predicate Ready(d: Disk, op: Op, sha1Hex: Bytes -> string)
  {
    match op
    case Ensure(p, h, _, _) => Valid(d, h, p, sha1Hex)
    case MakeDirs(p) => Prefixes(p) <= d.dirs && Prefixes(p) !! d.files.Keys
    case _ => true
  }

  /** `op` cannot undo what `t` left behind: it does not truncate or overwrite the file `t`
      downloaded, and a download to the same path expects the same digest. */
  predicate Preserves(op: Op, t: Op)
  {
    t.Ensure? ==>
      match op
      case Create(q) => q != t.path
      case Write(q, _) => q != t.path
      case Ensure(q, h, _, _) => q == t.path ==> h == t.sha1
      case _ => true
  }

  /** No step undoes an earlier one. */
  predicate Settled(ops: seq<Op>)
  {
    forall i, j :: 0 <= i < j < |ops| ==> Preserves(ops[j], ops[i])
  }

  lemma StepPreservesReady(d: Disk, op: Op, t: Op, fetch: string -> Result<Bytes, Error>, sha1Hex: Bytes -> string)
    requires Ready(d, t, sha1Hex) && Preserves(op, t)
    ensures Ready(Step(d, op, fetch, sha1Hex).disk, t, sha1Hex)
  {
    var d' := Step(d, op, fetch, sha1Hex).disk;
    if t.MakeDirs? {
      assert d.dirs <= d'.dirs;
      forall q | q in d'.files && q !in d.files
        ensures q !in Prefixes(t.path)
      {
        assert q in d'.files.Keys - d.files.Keys;
      }
    }
  }

  lemma StepMakesReady(d: Disk, op: Op, fetch: string -> Result<Bytes, Error>, sha1Hex: Bytes -> string)
    requires Step(d, op, fetch, sha1Hex).status.Done?
    requires op.Ensure? && fetch(op.url).Ok? ==> sha1Hex(fetch(op.url).value) == op.sha1
    ensures Ready(Step(d, op, fetch, sha1Hex).disk, op, sha1Hex)
  {
  }

  /** After a run that ends `Done`, every step's result is in place at the end: each downloaded
      file has its expected digest and each directory chain exists. */
  lemma {:induction false} RunMakesReady(d: Disk, ops: seq<Op>, fetch: string -> Result<Bytes, Error>, sha1Hex: Bytes -> string)
    requires Run(d, ops, fetch, sha1Hex).status.Done?
    requires Consistent(ops, fetch, sha1Hex) && Settled(ops)
    ensures forall i :: 0 <= i < |ops| ==> Ready(Run(d, ops, fetch, sha1Hex).disk, ops[i], sha1Hex)
    decreases |ops|
  {
    if ops != [] {
      var e := Step(d, ops[0], fetch, sha1Hex);
      var rest := ops[1..];
      assert Consistent(rest, fetch, sha1Hex) by {
        forall i | 0 <= i < |rest| ensures rest[i] == ops[i + 1] { }
      }
      assert Settled(rest) by {
        forall i, j | 0 <= i < j < |rest| ensures Preserves(rest[j], rest[i]) {
          assert rest[j] == ops[j + 1] && rest[i] == ops[i + 1];
        }
      }
      RunMakesReady(e.disk, rest, fetch, sha1Hex);
      StepMakesReady(d, ops[0], fetch, sha1Hex);
      RunPreservesReady(e.disk, rest, ops[0], fetch, sha1Hex);
      forall i | 1 <= i < |ops| ensures Ready(Run(d, ops, fetch, sha1Hex).disk, ops[i], sha1Hex) {
        assert ops[i] == rest[i - 1];
      }
    }
  }

  lemma {:induction false} RunPreservesReady(d: Disk, ops: seq<Op>, t: Op, fetch: string -> Result<Bytes, Error>, sha1Hex: Bytes -> string)
    requires Ready(d, t, sha1Hex)
    requires forall j :: 0 <= j < |ops| ==> Preserves(ops[j], t)
    ensures Ready(Run(d, ops, fetch, sha1Hex).disk, t, sha1Hex)
    decreases |ops|
  {
    if ops != [] {
      StepPreservesReady(d, ops[0], t, fetch, sha1Hex);
      var e := Step(d, ops[0], fetch, sha1Hex);
      if e.status.Done? {
        forall j | 0 <= j < |ops| - 1 ensures Preserves(ops[1..][j], t) {
          assert ops[1..][j] == ops[j + 1];
        }
        RunPreservesReady(e.disk, ops[1..], t, fetch, sha1Hex);
      }
    }
  }

  /** Hence every file a finished run was to download is on disk with the expected digest. */
  lemma RunDownloadsValid(d: Disk, ops: seq<Op>, fetch: string -> Result<Bytes, Error>, sha1Hex: Bytes -> string, i: nat)
    requires Run(d, ops, fetch, sha1Hex).status.Done?
    requires Consistent(ops, fetch, sha1Hex) && Settled(ops)
    requires i < |ops| && ops[i].Ensure?
    ensures Valid(Run(d, ops, fetch, sha1Hex).disk, ops[i].sha1, ops[i].path, sha1Hex)
  {
    RunMakesReady(d, ops, fetch, sha1Hex);
    assert Ready(Run(d, ops, fetch, sha1Hex).disk, ops[i], sha1Hex);
  }

  // ---------------------------------------------------------------- running again

  /** The steps that can run again without effect: downloads and `create_dir_all`. */
  predicate Rerunnable(ops: seq<Op>)
  {
    forall i :: 0 <= i < |ops| ==> ops[i].Ensure? || ops[i].MakeDirs?
  }

  /** When everything is already in place, a run changes nothing and needs no network. */
  lemma {:induction false} ReadyRunIsNoop(d: Disk, ops: seq<Op>, fetch: string -> Result<Bytes, Error>, sha1Hex: Bytes -> string)
    requires Rerunnable(ops)
    requires forall i :: 0 <= i < |ops| ==> Ready(d, ops[i], sha1Hex)
    ensures Run(d, ops, fetch, sha1Hex) == Effect(d, Done)
    decreases |ops|
  {
    if ops != [] {
      var e := Step(d, ops[0], fetch, sha1Hex);
      assert Ready(d, ops[0], sha1Hex);
      if ops[0].MakeDirs? {
        assert d.dirs + Prefixes(ops[0].path) == d.dirs;
      }
      assert e == Effect(d, Done);
      forall i | 0 <= i < |ops| - 1 ensures ops[1..][i] == ops[i + 1] && Ready(d, ops[1..][i], sha1Hex) {
        assert Ready(d, ops[i + 1], sha1Hex);
      }
      ReadyRunIsNoop(d, ops[1..], fetch, sha1Hex);
    }
  }

  /** Running the downloads again after a finished run changes nothing and fetches nothing, so
      it ends the same way whatever the network does (`fetch'`). */
  lemma RerunIsNoop(d: Disk, ops: seq<Op>, fetch: string -> Result<Bytes, Error>, fetch': string -> Result<Bytes, Error>, sha1Hex: Bytes -> string)
    requires Rerunnable(ops) && Consistent(ops, fetch, sha1Hex) && Settled(ops)
    requires Run(d, ops, fetch, sha1Hex).status.Done?
    ensures var d' := Run(d, ops, fetch, sha1Hex).disk; Run(d', ops, fetch', sha1Hex) == Effect(d', Done)
  {
    RunMakesReady(d, ops, fetch, sha1Hex);
    ReadyRunIsNoop(Run(d, ops, fetch, sha1Hex).disk, ops, fetch', sha1Hex);
  }

  // ---------------------------------------------------------------- plans and their parts

  /** Steps that only download, create directories or stop: no truncation, no plain write. */
  predicate OnlyDownloads(ops: seq<Op>)
  {
    forall i :: 0 <= i < |ops| ==> ops[i].MakeDirs? || ops[i].Ensure? || ops[i].Abort? || ops[i].Crash?
  }

  /** No two downloads to the same path expect different digests. */
  predicate DigestsAgree(ops: seq<Op>)
  {
    forall i, j :: 0 <= i < j < |ops| && ops[i].Ensure? && ops[j].Ensure? && ops[i].path == ops[j].path ==>
      ops[i].sha1 == ops[j].sha1
  }

  /** A run that ends `Done` met no `Abort` and no `Crash`. */
  lemma {:induction false} RunDoneHasNoStop(d: Disk, ops: seq<Op>, fetch: string -> Result<Bytes, Error>, sha1Hex: Bytes -> string)
    requires Run(d, ops, fetch, sha1Hex).status.Done?
    ensures forall i :: 0 <= i < |ops| ==> !ops[i].Abort? && !ops[i].Crash?
    decreases |ops|
  {
    if ops != [] {
      var e := Step(d, ops[0], fetch, sha1Hex);
      RunDoneHasNoStop(e.disk, ops[1..], fetch, sha1Hex);
      forall i | 1 <= i < |ops| ensures !ops[i].Abort? && !ops[i].Crash? {
        assert ops[i] == ops[1..][i - 1];
      }
    }
  }

  /** A plan that truncates or writes only in its first `k` steps, where no write undoes an
      earlier download, is settled as soon as its downloads agree on digests. */
  lemma SettledWhenDigestsAgree(ops: seq<Op>, k: nat)
    requires DigestsAgree(ops)
    requires forall j :: k <= j < |ops| ==> !ops[j].Create? && !ops[j].Write?
    requires forall i, j :: 0 <= i < j < k && j < |ops| ==> Preserves(ops[j], ops[i])
    ensures Settled(ops)
  {
  }

  lemma ConsistentParts(a: seq<Op>, b: seq<Op>, fetch: string -> Result<Bytes, Error>, sha1Hex: Bytes -> string)
    requires Consistent(a + b, fetch, sha1Hex)
    ensures Consistent(a, fetch, sha1Hex) && Consistent(b, fetch, sha1Hex)
  {
    forall i | 0 <= i < |b| ensures b[i] == (a + b)[|a| + i] { }
    forall i | 0 <= i < |a| ensures a[i] == (a + b)[i] { }
  }

  lemma DigestsAgreeParts(a: seq<Op>, b: seq<Op>)
    requires DigestsAgree(a + b)
    ensures DigestsAgree(a) && DigestsAgree(b)
  {
    forall i | 0 <= i < |b| ensures b[i] == (a + b)[|a| + i] { }
    forall i | 0 <= i < |a| ensures a[i] == (a + b)[i] { }
  }

  lemma OnlyDownloadsAppend(a: seq<Op>, b: seq<Op>)
    requires OnlyDownloads(a) && OnlyDownloads(b)
    ensures OnlyDownloads(a + b)
  {
  }

  /** A plan whose remaining part starts with `Abort(e)` ends with that error unless it failed
      before. */
  lemma RunStopsAtAbort(d: Disk, head: seq<Op>, e: Error, rest: seq<Op>, fetch: string -> Result<Bytes, Error>, sha1Hex: Bytes -> string)
    ensures var before := Run(d, head, fetch, sha1Hex);
            Run(d, head + ([Abort(e)] + rest), fetch, sha1Hex) ==
              if before.status.Done? then Effect(before.disk, Failed(e)) else before
  {
    RunAppend(d, head, [Abort(e)] + rest, fetch, sha1Hex);
  }

  // ---------------------------------------------------------------- one block of steps per item

  /** The steps of a loop over `xs` whose iteration for `x` performs the steps `f(x)`. */
  function FlatMap<T>(xs: seq<T>, f: T -> seq<Op>): seq<Op>
  {
    if xs == [] then [] else FlatMap(xs[..|xs| - 1], f) + f(xs[|xs| - 1])
  }

  lemma {:induction false} FlatMapAppend<T>(a: seq<T>, b: seq<T>, f: T -> seq<Op>)
    ensures FlatMap(a + b, f) == FlatMap(a, f) + FlatMap(b, f)
    decreases |b|
  {
    if b == [] {
      assert a + b == a;
    } else {
      var b' := b[..|b| - 1];
      assert (a + b)[..|a + b| - 1] == a + b';
      FlatMapAppend(a, b', f);
    }
  }

  /** One more iteration of such a loop runs `f(xs[i])` from where the earlier ones left off. */
  lemma RunFlatMapStep<T>(d: Disk, xs: seq<T>, i: nat, f: T -> seq<Op>, fetch: string -> Result<Bytes, Error>, sha1Hex: Bytes -> string)
    requires i < |xs|
    requires Run(d, FlatMap(xs[..i], f), fetch, sha1Hex).status.Done?
    ensures Run(d, FlatMap(xs[..i + 1], f), fetch, sha1Hex) ==
            Run(Run(d, FlatMap(xs[..i], f), fetch, sha1Hex).disk, f(xs[i]), fetch, sha1Hex)
  {
    assert xs[..i + 1][..i] == xs[..i];
    RunAppend(d, FlatMap(xs[..i], f), f(xs[i]), fetch, sha1Hex);
  }

  /** An iteration that fails ends the whole loop with its result. */
  lemma RunFlatMapStop<T>(d: Disk, xs: seq<T>, i: nat, f: T -> seq<Op>, fetch: string -> Result<Bytes, Error>, sha1Hex: Bytes -> string)
    requires i < |xs|
    requires !Run(d, FlatMap(xs[..i + 1], f), fetch, sha1Hex).status.Done?
    ensures Run(d, FlatMap(xs, f), fetch, sha1Hex) == Run(d, FlatMap(xs[..i + 1], f), fetch, sha1Hex)
  {
    assert xs[..i + 1] + xs[i + 1..] == xs;
    FlatMapAppend(xs[..i + 1], xs[i + 1..], f);
    RunAppend(d, FlatMap(xs[..i + 1], f), FlatMap(xs[i + 1..], f), fetch, sha1Hex);
  }
}
