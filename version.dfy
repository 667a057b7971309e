/**
 * The Talos version probe (pkg/version/version.go). The file system is
 * given as the set of paths that exist and the dotenv reader's answer for
 * each path: the KEY=VALUE map of the file, or the failure to read it.
 */
module Version {
  import opened Wrappers
  import opened Errors
  import opened Utils

  type DotEnv = string -> Result<map<string, string>, Error>

  const OsReleaseFileName := "os-release"
  const OsReleaseDirs := ["/etc/", "/usr/lib/"]
  const VersionKey := "VERSION_ID"
  const Name := "talos-version"

  /** getVersionID: the VERSION_ID entry, "" when the file has none. */
  function GetVersionID(file: Result<map<string, string>, Error>): (r: Result<string, Error>)
    ensures r.Err? <==> file.Err?
    ensures file.Err? ==> r.error == Wrapped("failed to read os-release file", file.error)
    ensures file.Ok? && VersionKey in file.value ==> r.value == file.value[VersionKey]
    ensures file.Ok? && VersionKey !in file.value ==> r.value == ""
  {
    match file
    case Err(e) => Err(Wrapped("failed to read os-release file", e))
    case Ok(env) => Ok(if VersionKey in env then env[VersionKey] else "")
  }

  /** The candidate file in directory dir exists and reads without error. */
  predicate Readable(dir: string, present: set<string>, dotenv: DotEnv) {
    dir + OsReleaseFileName in present && dotenv(dir + OsReleaseFileName).Ok?
  }

  /** The first candidate directory whose os-release exists and reads, or |dirs| if none does. */
  function Decisive(dirs: seq<string>, present: set<string>, dotenv: DotEnv): (k: nat)
    ensures k <= |dirs|
    ensures forall j :: 0 <= j < k ==> !Readable(dirs[j], present, dotenv)
    ensures k < |dirs| ==> Readable(dirs[k], present, dotenv)
  {
    if dirs == [] then 0
    else if Readable(dirs[0], present, dotenv) then 0
    else 1 + Decisive(dirs[1..], present, dotenv)
  }

  /** The version the search settles on: the VERSION_ID of the decisive file, "" when none is. */
  function FoundVersion(present: set<string>, dotenv: DotEnv): string
  {
    var k := Decisive(OsReleaseDirs, present, dotenv);
    if k < |OsReleaseDirs| then GetVersionID(dotenv(OsReleaseDirs[k] + OsReleaseFileName)).value else ""
  }

  /**
   * getTalosVersion: the candidates in order; a missing file is skipped, a
   * file that fails to read resets the version to "" and the search goes
   * on, and the first file that reads ends the search whatever its
   * VERSION_ID. An empty version is an error.
   */
  method GetTalosVersion(present: set<string>, dotenv: DotEnv) returns (r: Result<string, Error>)
    ensures FoundVersion(present, dotenv) == "" ==> r == Err(VersionNotFound)
    ensures FoundVersion(present, dotenv) != "" ==> r == Ok(FoundVersion(present, dotenv))
  {
    var version := "";
    var i := 0;
    while i < |OsReleaseDirs|
      invariant 0 <= i <= |OsReleaseDirs|
      invariant forall j :: 0 <= j < i ==> !Readable(OsReleaseDirs[j], present, dotenv)
      invariant version == ""
    {
      var releaseFile := OsReleaseDirs[i] + OsReleaseFileName;
      if releaseFile in present {
        var v := GetVersionID(dotenv(releaseFile));
        if v.Ok? {
          version := v.value;
          DecisiveAt(OsReleaseDirs, present, dotenv, i);
          break;
        }
        version := "";
      }
      i := i + 1;
    }
    if i == |OsReleaseDirs| {
      DecisiveAt(OsReleaseDirs, present, dotenv, i);
    }
    if version == "" {
      return Err(VersionNotFound);
    }
    return Ok(version);
  }

  lemma {:induction false} DecisiveAt(dirs: seq<string>, present: set<string>, dotenv: DotEnv, i: nat)
    requires i <= |dirs|
    requires forall j :: 0 <= j < i ==> !Readable(dirs[j], present, dotenv)
    requires i < |dirs| ==> Readable(dirs[i], present, dotenv)
    ensures Decisive(dirs, present, dotenv) == i
  {
    if i > 0 {
      DecisiveAt(dirs[1..], present, dotenv, i - 1);
    }
  }

  /**
   * /etc/os-release takes precedence: once it exists and reads, the
   * /usr/lib candidate plays no part, even when /etc has no VERSION_ID
   * and the search therefore ends in VersionNotFound.
   */
  lemma EtcShadowsUsrLib(present: set<string>, dotenv: DotEnv)
    requires "/etc/os-release" in present && dotenv("/etc/os-release").Ok?
    ensures FoundVersion(present, dotenv) == GetVersionID(dotenv("/etc/os-release")).value
    ensures VersionKey !in dotenv("/etc/os-release").value ==> FoundVersion(present, dotenv) == ""
  {
    assert OsReleaseDirs[0] + OsReleaseFileName == "/etc/os-release";
    assert Readable(OsReleaseDirs[0], present, dotenv);
  }

  /**
   * When /etc/os-release is missing or unreadable, the version comes from
   * /usr/lib/os-release, and is "" when that one is missing or unreadable too.
   */
  lemma UsrLibFallback(present: set<string>, dotenv: DotEnv)
    requires "/etc/os-release" !in present || dotenv("/etc/os-release").Err?
    ensures "/usr/lib/os-release" in present && dotenv("/usr/lib/os-release").Ok? ==>
      FoundVersion(present, dotenv) == GetVersionID(dotenv("/usr/lib/os-release")).value
    ensures !("/usr/lib/os-release" in present && dotenv("/usr/lib/os-release").Ok?) ==>
      FoundVersion(present, dotenv) == ""
  {
    assert OsReleaseDirs[0] + OsReleaseFileName == "/etc/os-release";
    assert OsReleaseDirs[1] + OsReleaseFileName == "/usr/lib/os-release";
    assert !Readable(OsReleaseDirs[0], present, dotenv);
    if Readable(OsReleaseDirs[1], present, dotenv) {
      DecisiveAt(OsReleaseDirs, present, dotenv, 1);
    } else {
      DecisiveAt(OsReleaseDirs, present, dotenv, 2);
    }
  }

  class Attestable {
    var version: string
    var timestamp: string

    constructor ()
      ensures version == "" && timestamp == ""
    {
      version := "";
      timestamp := "";
    }

    /**
     * Measure: on a failure nothing is recorded; on success the version
     * found and the timestamp are stored and the measurement is that of
     * the version text, which is never empty.
     */
    method Measure(present: set<string>, dotenv: DotEnv, now: string) returns (m: Result<string, Error>)
      modifies this
      ensures m.Err? ==> version == old(version) && timestamp == old(timestamp)
      ensures m.Err? <==> FoundVersion(present, dotenv) == ""
      ensures m.Err? ==> m.error == Wrapped("failed to get Talos version", VersionNotFound)
      ensures m.Ok? ==> version == FoundVersion(present, dotenv) && version != "" && timestamp == now
      ensures m.Ok? ==> m.value == EncodeMeasurement(version)
    {
      var v := GetTalosVersion(present, dotenv);
      if v.Err? {
        return Err(Wrapped("failed to get Talos version", v.error));
      }
      timestamp := now;
      version := v.value;
      return Ok(EncodeMeasurement(version));
    }

    /** Evidence: the recorded version and timestamp, nothing else. */
    function Evidence(): (r: map<string, string>)
      reads this
      ensures r.Keys == {Name, "timestamp"}
      ensures r[Name] == version && r["timestamp"] == timestamp
    {
      map[Name := version, "timestamp" := timestamp]
    }
  }
}
