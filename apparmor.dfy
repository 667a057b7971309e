/** The AppArmor probe (pkg/apparmor/apparmor.go). */
module AppArmor {
  import opened Wrappers
  import opened Errors
  import opened Hex
  import opened Text
  import opened Utils

  const EnabledPath := "/sys/module/apparmor/parameters/enabled"
  const Name := "apparmor"

  /**
   * isAppArmorEnabled: the module parameter file reads "Y", with nothing
   * else besides white space around it.
   */
  function IsAppArmorEnabled(file: Result<string, Error>): (r: Result<bool, Error>)
    ensures r.Err? <==> file.Err?
    ensures file.Err? ==> r.error == Wrapped("failed to read AppArmor enabled file", file.error)
    ensures file.Ok? ==> (r.value <==> Padded(file.value, "Y"))
  {
    match file
    case Err(e) => Err(Wrapped("failed to read AppArmor enabled file", e))
    case Ok(data) =>
      TrimSpaceIs(data, "Y");
      Ok(TrimSpace(data) == "Y")
  }

  class Attestable {
    var enabled: bool
    var timestamp: string

    constructor ()
      ensures !enabled && timestamp == ""
    {
      enabled := false;
      timestamp := "";
    }

    /**
     * Measure: on a read failure nothing is recorded; otherwise the status
     * and the clock reading are stored and the measurement is that of
     * "enabled" or "disabled", in agreement with what Evidence reports.
     */
    method Measure(file: Result<string, Error>, now: string) returns (m: Result<string, Error>)
      modifies this
      ensures file.Err? ==>
        m == Err(Wrapped("failed to determine AppArmor status", IsAppArmorEnabled(file).error))
        && enabled == old(enabled) && timestamp == old(timestamp)
      ensures file.Ok? ==>
        enabled == IsAppArmorEnabled(file).value && timestamp == now
        && m == Ok(BoolToMeasurement(enabled))
      ensures m.Ok? ==> m.value == BoolToMeasurement(Evidence()[Name] == "true")
    {
      var status := IsAppArmorEnabled(file);
      if status.Err? {
        return Err(Wrapped("failed to determine AppArmor status", status.error));
      }
      timestamp := now;
      enabled := status.value;
      return Ok(BoolToMeasurement(enabled));
    }

    /** Evidence: the recorded status as "true"/"false" and the recorded timestamp, nothing else. */
    function Evidence(): (r: map<string, string>)
      reads this
      ensures r.Keys == {Name, "timestamp"}
      ensures r[Name] == FormatBool(enabled)
      ensures r["timestamp"] == timestamp
    {
      map[Name := FormatBool(enabled), "timestamp" := timestamp]
    }

    /** GetPCRs: this probe binds no PCR. */
    function GetPCRs(): (r: map<int, string>)
      ensures r == map[]
    {
      map[]
    }

    /** Quote: a placeholder that hands the nonce back unchanged. */
    function Quote(nonce: seq<byte>): (r: seq<byte>)
      ensures r == nonce
    {
      nonce
    }
  }
}
