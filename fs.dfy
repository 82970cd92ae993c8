/** The filesystem as a mutable object. Each method performs one `std::fs` call (or one helper
    of crates/smallauncher_lib/src/file.rs) in place, and its contract ties the new state and the
    returned status to the value semantics in module `Store`. */
module Fs {
  import opened Wrappers
  import opened Errors
  import opened Paths
  import Store

  class FileSystem {
    var files: map<Path, Store.Bytes>
    var dirs: set<Path>
    var exec: set<Path>

    constructor (d: Store.Disk)
      ensures State() == d
    {
      files := d.files;
      dirs := d.dirs;
      exec := d.exec;
    }

    /** The whole state as a value. */
    function State(): Store.Disk
      reads this
    {
      Store.Disk(files, dirs, exec)
    }

    predicate Exists(p: Path)
      reads this
    {
      Store.Exists(State(), p)
    }

    /** `fs::create_dir_all`. */
    method CreateDirAll(p: Path) returns (s: Status)
      modifies this
      ensures Store.Effect(State(), s) == Store.CreateDirAll(old(State()), p)
    {
      var i := 1;
      while i <= |p|
        invariant 1 <= i <= |p| + 1
        invariant forall k :: 1 <= k < i ==> p[..k] !in files
      {
        if p[..i] in files {
          return Failed(Io);
        }
        i := i + 1;
      }
      dirs := dirs + Store.Prefixes(p);
      s := Done;
    }

    /** `fs::File::create`: create or truncate. */
    method CreateFile(p: Path) returns (s: Status)
      modifies this
      ensures Store.Effect(State(), s) == Store.CreateFile(old(State()), p)
    {
      if |p| == 0 || p in dirs || (|p| > 1 && p[..|p| - 1] !in dirs) {
        return Failed(Io);
      }
      files := files[p := []];
      s := Done;
    }

    /** `create_or_open_file` (crates/smallauncher_lib/src/file.rs:5-11). */
    method CreateOrOpenFile(p: Path) returns (s: Status)
      modifies this
      ensures Store.Effect(State(), s) == Store.CreateOrOpenFile(old(State()), p)
    {
      if |p| == 0 {
        return Failed(Io);
      }
      s := CreateDirAll(p[..|p| - 1]);
      if s != Done {
        return;
      }
      assert |p| > 1 ==> (p[..|p| - 1])[..|p| - 1] == p[..|p| - 1] && p[..|p| - 1] in Store.Prefixes(p[..|p| - 1]);
      assert p !in Store.Prefixes(p[..|p| - 1]);
      s := CreateFile(p);
    }

    /** Writing the whole of `data` through a handle opened on `p`. */
    method Write(p: Path, data: Store.Bytes) returns (s: Status)
      modifies this
      ensures Store.Effect(State(), s) == Store.Write(old(State()), p, data)
    {
      if p !in files {
        return Failed(Io);
      }
      files := files[p := data];
      s := Done;
    }

    /** `fs::write`. */
    method WriteNew(p: Path, data: Store.Bytes) returns (s: Status)
      modifies this
      ensures Store.Effect(State(), s) == Store.WriteNew(old(State()), p, data)
    {
      s := CreateFile(p);
      if s == Done {
        s := Write(p, data);
      }
    }

    /** `set_permissions(Permissions::from_mode(0o755))`. */
    method SetMode755(p: Path)
      modifies this
      ensures State() == Store.SetMode755(old(State()), p)
    {
      exec := exec + {p};
    }

    /** `file_hash` (crates/smallauncher_lib/src/file.rs:13-20): open, hash the content, compare
        the hexadecimal digest with `hash`. */
    method FileHash(hash: string, p: Path, sha1Hex: Store.Bytes -> string) returns (r: Result<bool, Error>)
      ensures r == Store.FileHash(State(), hash, p, sha1Hex)
    {
      if p !in files {
        return Err(Io);
      }
      var digest := sha1Hex(files[p]);
      r := Ok(digest == hash);
    }
  }
}
