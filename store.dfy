/** The filesystem as the launcher sees it, as a value: file contents by path, the set of
    directories, and the files given mode 0755. The functions here are the semantics of the
    `std::fs` calls the launcher makes and of the helpers in
    crates/smallauncher_lib/src/file.rs:5-20. */
module Store {
  import opened Wrappers
  import opened Errors
  import opened Paths

  type Bytes = seq<bv8>

  datatype Disk = Disk(files: map<Path, Bytes>, dirs: set<Path>, exec: set<Path>)

  /** The filesystem after a step, and how the step ended. */
  datatype Effect = Effect(disk: Disk, status: Status)

  /** The non-empty prefixes of `p`, `p` itself included. */
  function Prefixes(p: Path): (ps: set<Path>)
    ensures forall k :: 1 <= k <= |p| ==> p[..k] in ps
    ensures forall q :: q in ps ==> 1 <= |q| <= |p| && q == p[..|q|]
  {
    set k | 1 <= k <= |p| :: p[..k]
  }

  /** The filesystem is a tree: every proper prefix of a file or directory is a directory,
      nothing is both a file and a directory, and the empty path is neither. */
  ghost predicate Tree(d: Disk)
  {
    && d.files.Keys !! d.dirs
    && [] !in d.files && [] !in d.dirs
    && (forall p, k :: p in d.files && 1 <= k < |p| ==> p[..k] in d.dirs)
    && (forall p, k :: p in d.dirs && 1 <= k < |p| ==> p[..k] in d.dirs)
  }

  /** `Path::exists`: a file or a directory. */
  predicate Exists(d: Disk, p: Path)
  {
    p in d.files || p in d.dirs
  }

  /** `fs::create_dir_all`: every prefix becomes a directory, unless one of them is a file. */
  function CreateDirAll(d: Disk, p: Path): (e: Effect)
    ensures e.status.Done? ==> Prefixes(p) <= e.disk.dirs && e.disk.files == d.files && e.disk.exec == d.exec
    ensures e.status.Done? <==> forall q :: q in Prefixes(p) ==> q !in d.files
    ensures !e.status.Done? ==> e == Effect(d, Failed(Io))
  {
    if Prefixes(p) !! d.files.Keys then Effect(d.(dirs := d.dirs + Prefixes(p)), Done)
    else Effect(d, Failed(Io))
  }

  /** `fs::File::create`: fails on the empty path, on a directory and when the parent directory
      is missing; otherwise the file exists afterwards and is empty. */
  function CreateFile(d: Disk, p: Path): (e: Effect)
    ensures e.status.Done? ==> e.disk == d.(files := d.files[p := []])
    ensures !e.status.Done? ==> e == Effect(d, Failed(Io))
  {
    if |p| == 0 || p in d.dirs || (|p| > 1 && p[..|p| - 1] !in d.dirs) then Effect(d, Failed(Io))
    else Effect(d.(files := d.files[p := []]), Done)
  }

  /** `create_or_open_file`: create the parent directories (when the path has a parent), then
      create or truncate the file. */
  function CreateOrOpenFile(d: Disk, p: Path): (e: Effect)
    ensures e.status.Done? ==> |p| > 0 && Prefixes(p[..|p| - 1]) <= e.disk.dirs
    ensures e.status.Done? ==> e.disk.files == d.files[p := []] && e.disk.exec == d.exec
    ensures e.status.Done? <==> |p| > 0 && p !in d.dirs && forall q :: q in Prefixes(p[..|p| - 1]) ==> q !in d.files
    ensures !e.status.Done? ==> e.status == Failed(Io) && e.disk.files == d.files && e.disk.exec == d.exec
  {
    if |p| == 0 then Effect(d, Failed(Io))
    else
      var parent := CreateDirAll(d, p[..|p| - 1]);
      if !parent.status.Done? then parent
      else
        assert |p| > 1 ==> (p[..|p| - 1])[..|p| - 1] == p[..|p| - 1] && p[..|p| - 1] in Prefixes(p[..|p| - 1]);
        assert p !in Prefixes(p[..|p| - 1]);
        CreateFile(parent.disk, p)
  }

  /** Writing through a handle opened by `create_or_open_file`: the file's content becomes `data`. */
  function Write(d: Disk, p: Path, data: Bytes): (e: Effect)
    ensures p in d.files ==> e == Effect(d.(files := d.files[p := data]), Done)
    ensures p !in d.files ==> e == Effect(d, Failed(Io))
  {
    if p in d.files then Effect(d.(files := d.files[p := data]), Done) else Effect(d, Failed(Io))
  }

  /** `fs::write`: create the file (no parent directories) and write `data` into it. */
  function WriteNew(d: Disk, p: Path, data: Bytes): (e: Effect)
    ensures e.status.Done? ==> e.disk == d.(files := d.files[p := data])
    ensures !e.status.Done? ==> e == Effect(d, Failed(Io))
  {
    var c := CreateFile(d, p);
    if !c.status.Done? then c else Write(c.disk, p, data)
  }

  /** `set_permissions(Permissions::from_mode(0o755))` on an open file. */
  function SetMode755(d: Disk, p: Path): Disk
  {
    d.(exec := d.exec + {p})
  }

  /** `file_hash`: whether the lower-case hexadecimal SHA-1 of the file's content is `hash`,
      compared as strings; a missing file is an `Io` error. */
  function FileHash(d: Disk, hash: string, p: Path, sha1Hex: Bytes -> string): (r: Result<bool, Error>)
    ensures r.Err? <==> p !in d.files
    ensures r.Err? ==> r.error == Io
    ensures r == Ok(true) <==> p in d.files && sha1Hex(d.files[p]) == hash
  {
    if p in d.files then Ok(sha1Hex(d.files[p]) == hash) else Err(Io)
  }

  /** `file_hash(..).unwrap_or_default()`: an error counts as a mismatch. */
  predicate Valid(d: Disk, hash: string, p: Path, sha1Hex: Bytes -> string)
  {
    FileHash(d, hash, p, sha1Hex).Ok? && FileHash(d, hash, p, sha1Hex).value
  }

  // ---------------------------------------------------------------- the tree invariant

  lemma CreateDirAllTree(d: Disk, p: Path)
    requires Tree(d)
    ensures Tree(CreateDirAll(d, p).disk)
  {
    var e := CreateDirAll(d, p);
    if e.status.Done? {
      var d' := e.disk;
      forall q, k | q in d'.dirs && 1 <= k < |q|
        ensures q[..k] in d'.dirs
      {
        if q in Prefixes(p) {
          assert q[..k] == p[..k];
        }
      }
    }
  }

  lemma CreateOrOpenFileTree(d: Disk, p: Path)
    requires Tree(d)
    ensures Tree(CreateOrOpenFile(d, p).disk)
  {
    if |p| > 0 {
      CreateDirAllTree(d, p[..|p| - 1]);
      var e := CreateDirAll(d, p[..|p| - 1]);
      if e.status.Done? {
        var d' := CreateFile(e.disk, p).disk;
        if CreateFile(e.disk, p).status.Done? {
          forall q, k | q in d'.files && 1 <= k < |q|
            ensures q[..k] in d'.dirs
          {
            if q == p {
              assert q[..k] == (p[..|p| - 1])[..k];
            }
          }
        }
      }
    }
  }

  lemma WriteTree(d: Disk, p: Path, data: Bytes)
    requires Tree(d)
    ensures Tree(Write(d, p, data).disk)
  {
  }

  lemma WriteNewTree(d: Disk, p: Path, data: Bytes)
    requires Tree(d)
    ensures Tree(WriteNew(d, p, data).disk)
  {
    var d' := WriteNew(d, p, data).disk;
    if WriteNew(d, p, data).status.Done? {
      forall q, k | q in d'.files && 1 <= k < |q|
        ensures q[..k] in d'.dirs
      {
        if q == p {
          assert q[..k] == (p[..|p| - 1])[..k];
        }
      }
    }
  }

  /** After `create_or_open_file` succeeds, every ancestor of the path is a directory and the
      file exists, empty; nothing else changes among the files. */
  lemma CreateOrOpenFileAncestors(d: Disk, p: Path, k: nat)
    requires CreateOrOpenFile(d, p).status.Done?
    requires 1 <= k < |p|
    ensures p[..k] in CreateOrOpenFile(d, p).disk.dirs
    ensures CreateOrOpenFile(d, p).disk.files[p] == []
  {
    assert p[..k] == (p[..|p| - 1])[..k];
  }
}
