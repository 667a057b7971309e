/**
 * The read-only squashfs root probe (pkg/squashfs/squashfs.go). The mount
 * table is given as the text of /proc/mounts; its lines are the pieces
 * between newlines.
 */
module Squashfs {
  import opened Wrappers
  import opened Errors
  import opened Hex
  import opened Text
  import opened Utils

  const MountsPath := "/proc/mounts"
  const FileExpectedFieldsCount := 4
  const Name := "squashfs"

  /**
   * A mount line that shows a read-only squashfs root: at least four
   * fields, mount point "/", type "squashfs", and "ro" somewhere in the
   * options.
   */
  predicate IsRootSquashfsLine(line: string) {
    var fields := Fields(line);
    |fields| >= FileExpectedFieldsCount
    && fields[1] == "/" && fields[2] == "squashfs" && Contains(fields[3], "ro")
  }

  /** Some line of the mount table shows a read-only squashfs root. */
  predicate RootSquashfsListed(mounts: string) {
    var lines := Split(mounts, '\n');
    exists k :: 0 <= k < |lines| && IsRootSquashfsLine(lines[k])
  }

  /** Scans the mount lines in order and stops at the first that matches. */
  method ScanMountLines(lines: seq<string>) returns (found: bool)
    ensures found <==> exists k :: 0 <= k < |lines| && IsRootSquashfsLine(lines[k])
  {
    var k := 0;
    while k < |lines|
      invariant 0 <= k <= |lines|
      invariant forall j :: 0 <= j < k ==> !IsRootSquashfsLine(lines[j])
    {
      var fields := Fields(lines[k]);
      if |fields| < FileExpectedFieldsCount {
        k := k + 1;
        continue;
      }
      var mountPoint, fsType, options := fields[1], fields[2], fields[3];
      if mountPoint == "/" && fsType == "squashfs" && Contains(options, "ro") {
        return true;
      }
      k := k + 1;
    }
    return false;
  }

  /**
   * IsRootSquashfsReadOnly: true as soon as one line matches; with no
   * matching line the answer is an error, never a plain false.
   */
  method IsRootSquashfsReadOnly(mounts: Result<string, Error>) returns (r: Result<bool, Error>)
    ensures mounts.Err? ==> r == Err(Wrapped("failed to open /proc/mounts", mounts.error))
    ensures mounts.Ok? ==> (r.Ok? <==> RootSquashfsListed(mounts.value))
    ensures mounts.Ok? && r.Err? ==> r.error == External("root is not a read-only squashfs filesystem")
    ensures r.Ok? ==> r.value
  {
    if mounts.Err? {
      return Err(Wrapped("failed to open /proc/mounts", mounts.error));
    }
    var found := ScanMountLines(Split(mounts.value, '\n'));
    if found {
      return Ok(true);
    }
    return Err(External("root is not a read-only squashfs filesystem"));
  }

  /** A short mount line can never count as the squashfs root. */
  lemma ShortLinesSkipped(line: string)
    requires |Fields(line)| < FileExpectedFieldsCount
    ensures !IsRootSquashfsLine(line)
  {
  }

  class Attestable {
    var enabled: bool
    var timestamp: string

    constructor ()
      ensures !enabled && timestamp == ""
    {
      enabled := false;
      timestamp := "";
    }

    /**
     * Measure: on a failure nothing is recorded; a success always records
     * enabled, since the check never answers a plain false, and the
     * measurement is that of "enabled".
     */
    method Measure(mounts: Result<string, Error>, now: string) returns (m: Result<string, Error>)
      modifies this
      ensures m.Err? ==> enabled == old(enabled) && timestamp == old(timestamp)
      ensures mounts.Err? ==> m == Err(Wrapped("failed to measure squashfs", Wrapped("failed to open /proc/mounts", mounts.error)))
      ensures mounts.Ok? ==> (m.Ok? <==> RootSquashfsListed(mounts.value))
      ensures m.Ok? ==> enabled && timestamp == now && m.value == BoolToMeasurement(true)
      ensures m.Ok? ==> Evidence()[Name] == "true"
    {
      var status := IsRootSquashfsReadOnly(mounts);
      if status.Err? {
        return Err(Wrapped("failed to measure squashfs", status.error));
      }
      timestamp := now;
      enabled := status.value;
      return Ok(BoolToMeasurement(enabled));
    }

    /** Evidence: the recorded status as "true"/"false" and the recorded timestamp, nothing else. */
    function Evidence(): (r: map<string, string>)
      reads this
      ensures r.Keys == {Name, "timestamp"}
      ensures r[Name] == FormatBool(enabled)
      ensures r["timestamp"] == timestamp
    {
      map[Name := FormatBool(enabled), "timestamp" := timestamp]
    }

    /** GetPCRs: this probe binds no PCR. */
    function GetPCRs(): (r: map<int, string>)
      ensures r == map[]
    {
      map[]
    }

    /** Quote: a placeholder that hands the nonce back unchanged. */
    function Quote(nonce: seq<byte>): (r: seq<byte>)
      ensures r == nonce
    {
      nonce
    }
  }
}
