/** The SELinux probe (pkg/selinux/selinux.go). */
module SELinux {
  import opened Wrappers
  import opened Errors
  import opened Hex
  import opened Text
  import opened Utils

  const EnforcePath := "/sys/fs/selinux/enforce"
  const Name := "selinux"

  /**
   * GetSELinuxMode: "1" (up to surrounding white space) is Enforcing, "0"
   * is Permissive, anything else is the empty mode, without an error.
   */
  function GetSELinuxMode(file: Result<string, Error>): (r: Result<string, Error>)
    ensures r.Err? <==> file.Err?
    ensures file.Err? ==> r.error == Wrapped("failed to read SELinux enforce file", file.error)
    ensures file.Ok? ==> (r.value == "Enforcing" <==> Padded(file.value, "1"))
    ensures file.Ok? ==> (r.value == "Permissive" <==> Padded(file.value, "0"))
    ensures file.Ok? ==> (r.value == "" <==> !Padded(file.value, "1") && !Padded(file.value, "0"))
  {
    match file
    case Err(e) => Err(Wrapped("failed to read SELinux enforce file", e))
    case Ok(data) =>
      TrimSpaceIs(data, "1");
      TrimSpaceIs(data, "0");
      var modes := map["1" := "Enforcing", "0" := "Permissive"];
      var key := TrimSpace(data);
      Ok(if key in modes then modes[key] else "")
  }

  class Attestable {
    var mode: string
    var timestamp: string

    constructor ()
      ensures mode == "" && timestamp == ""
    {
      mode := "";
      timestamp := "";
    }

    /**
     * Measure: on a read failure nothing is recorded; otherwise the mode
     * and the clock reading are stored and the measurement is that of the
     * mode Evidence reports.
     */
    method Measure(file: Result<string, Error>, now: string) returns (m: Result<string, Error>)
      modifies this
      ensures file.Err? ==>
        m == Err(Wrapped("failed to determine SELinux status", GetSELinuxMode(file).error))
        && mode == old(mode) && timestamp == old(timestamp)
      ensures file.Ok? ==>
        mode == GetSELinuxMode(file).value && timestamp == now
        && m == Ok(EncodeMeasurement(mode))
      ensures m.Ok? ==> m.value == EncodeMeasurement(Evidence()[Name])
    {
      var current := GetSELinuxMode(file);
      if current.Err? {
        return Err(Wrapped("failed to determine SELinux status", current.error));
      }
      timestamp := now;
      mode := current.value;
      return Ok(EncodeMeasurement(mode));
    }

    /** Evidence: the recorded mode and timestamp, nothing else. */
    function Evidence(): (r: map<string, string>)
      reads this
      ensures r.Keys == {Name, "timestamp"}
      ensures r[Name] == mode && r["timestamp"] == timestamp
    {
      map[Name := mode, "timestamp" := timestamp]
    }

    /** GetPCRs: this probe binds no PCR. */
    function GetPCRs(): (r: map<int, string>)
      ensures r == map[]
    {
      map[]
    }

    /** Quote: a placeholder that hands the nonce back unchanged. */
    function Quote(nonce: seq<byte>): (r: seq<byte>)
      ensures r == nonce
    {
      nonce
    }
  }
}
