/** The version manifest (crates/smallauncher_lib/src/api/manifest.rs). */
module Manifest {
  import opened Wrappers

  /** `Manifest::DEFAULT_URL`. */
  const DefaultUrl := "https://launchermeta.mojang.com/mc/game/version_manifest.json"

  datatype Manifest = Manifest(latest: Latest, versions: seq<VersionStub>)

  datatype Latest = Latest(release: string, snapshot: string)

  /** One entry of the manifest (`manifest::Version`). */
  datatype VersionStub = VersionStub(id: string, versionType: string, url: string, time: string, releaseTime: string)

  /** `Manifest::get_version` over `versions`: the first entry whose id is `name`, or `None` when no entry has that id. */
  function GetVersion(versions: seq<VersionStub>, name: string): (r: Option<VersionStub>)
    ensures r.None? <==> forall i :: 0 <= i < |versions| ==> versions[i].id != name
    ensures r.Some? ==> r.value.id == name && exists i :: 0 <= i < |versions| && versions[i] == r.value
  {
    if versions == [] then None
    else if versions[0].id == name then Some(versions[0])
    else
      var r := GetVersion(versions[1..], name);
      assert forall i :: 1 <= i < |versions| ==> versions[i] == versions[1..][i - 1];
      assert r.Some? ==> versions[1..][IndexOf(versions[1..], r.value)] == r.value;
      r
  }

  /** The position of an element known to be in `s`. */
  function IndexOf(s: seq<VersionStub>, v: VersionStub): (i: nat)
    requires exists i :: 0 <= i < |s| && s[i] == v
    ensures i < |s| && s[i] == v
  {
    if s[0] == v then 0
    else
      assert exists i :: 1 <= i < |s| && s[i] == v;
      var j :| 1 <= j < |s| && s[j] == v;
      assert s[1..][j - 1] == v;
      1 + IndexOf(s[1..], v)
  }

  /** The entry returned is the first with that id: later duplicates are never returned. */
  lemma {:induction false} GetVersionFirst(versions: seq<VersionStub>, name: string, i: nat)
    requires i < |versions| && versions[i].id == name
    ensures GetVersion(versions, name).Some?
    ensures exists k :: 0 <= k <= i && GetVersion(versions, name) == Some(versions[k])
                        && forall j :: 0 <= j < k ==> versions[j].id != name
  {
    if versions[0].id != name {
      GetVersionFirst(versions[1..], name, i - 1);
      var k :| 0 <= k <= i - 1 && GetVersion(versions[1..], name) == Some(versions[1..][k])
               && forall j :: 0 <= j < k ==> versions[1..][j].id != name;
      assert forall j :: 1 <= j < k + 1 ==> versions[j] == versions[1..][j - 1];
      assert GetVersion(versions, name) == Some(versions[k + 1]);
    } else {
      assert GetVersion(versions, name) == Some(versions[0]);
    }
  }

  /** `get_latest_release`: the entry named by `latest.release`. */
  function GetLatestRelease(m: Manifest): (r: Option<VersionStub>)
    ensures r == GetVersion(m.versions, m.latest.release)
    ensures r.Some? ==> r.value.id == m.latest.release
  {
    GetVersion(m.versions, m.latest.release)
  }

  /** `get_latest_snapshot`: the entry named by `latest.snapshot`. */
  function GetLatestSnapshot(m: Manifest): (r: Option<VersionStub>)
    ensures r == GetVersion(m.versions, m.latest.snapshot)
    ensures r.Some? ==> r.value.id == m.latest.snapshot
  {
    GetVersion(m.versions, m.latest.snapshot)
  }
}
