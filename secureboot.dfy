/**
 * The Secure Boot probe (pkg/secureboot/secureboot.go). The probe reads
 * the SecureBoot variable of the EFI global-variable namespace (UEFI
 * Specification, section 3.3, Globally Defined Variables) through
 * efivarfs, where the file holds four attribute bytes followed by the
 * variable's data; the variable itself is one byte, 1 when Secure Boot is
 * enabled.
 */
module SecureBoot {
  import opened Wrappers
  import opened Errors
  import opened Hex
  import opened Utils

  const EfiVarsDir := "/sys/firmware/efi/efivars"
  const EfiGlobalVarGUID := "8be4df61-93ca-11d2-aa0d-00e098032b8c"
  const SecureBootVarPath := EfiVarsDir + "/SecureBoot-" + EfiGlobalVarGUID
  const Name := "secure-boot"

  /**
   * IsSecureBootEnabled: the last byte of the variable file is 1. An
   * empty file makes the Go code index out of range; that panic is the
   * error Panic here.
   */
  function IsSecureBootEnabled(file: Result<seq<byte>, Error>): (r: Result<bool, Error>)
    ensures file.Err? ==> r == Err(Wrapped("failed to read SecureBoot variable", file.error))
    ensures file.Ok? && file.value == [] ==> r.Err? && r.error.Panic?
    ensures r.Ok? <==> file.Ok? && file.value != []
    ensures r.Ok? ==> (r.value <==> file.value[|file.value| - 1] == 1)
  {
    match file
    case Err(e) => Err(Wrapped("failed to read SecureBoot variable", e))
    case Ok(data) =>
      if |data| == 0 then Err(Panic("index out of range [-1]"))
      else Ok(data[|data| - 1] == 1)
  }

  /** On an efivarfs file (attributes, then the one-byte value) the test reads the value. */
  lemma EfiVariableValue(attributes: seq<byte>, value: byte)
    requires |attributes| == 4
    ensures IsSecureBootEnabled(Ok(attributes + [value])) == Ok(value == 1)
  {
  }

  class Attestable {
    var enabled: bool
    var timestamp: string

    constructor ()
      ensures !enabled && timestamp == ""
    {
      enabled := false;
      timestamp := "";
    }

    /**
     * Measure: on a failure nothing is recorded; otherwise the status and
     * the clock reading are stored and the measurement is that of
     * "enabled" or "disabled", in agreement with what Evidence reports.
     */
    method Measure(file: Result<seq<byte>, Error>, now: string) returns (m: Result<string, Error>)
      modifies this
      ensures IsSecureBootEnabled(file).Err? ==>
        m == Err(Wrapped("failed to determine Secure Boot status", IsSecureBootEnabled(file).error))
        && enabled == old(enabled) && timestamp == old(timestamp)
      ensures IsSecureBootEnabled(file).Ok? ==>
        enabled == IsSecureBootEnabled(file).value && timestamp == now
        && m == Ok(BoolToMeasurement(enabled))
      ensures m.Ok? ==> m.value == BoolToMeasurement(Evidence()[Name] == "true")
    {
      var status := IsSecureBootEnabled(file);
      if status.Err? {
        return Err(Wrapped("failed to determine Secure Boot status", status.error));
      }
      timestamp := now;
      enabled := status.value;
      return Ok(BoolToMeasurement(enabled));
    }

    /** Evidence: the recorded status as "true"/"false" and the recorded timestamp, nothing else. */
    function Evidence(): (r: map<string, string>)
      reads this
      ensures r.Keys == {Name, "timestamp"}
      ensures r[Name] == FormatBool(enabled)
      ensures r["timestamp"] == timestamp
    {
      map[Name := FormatBool(enabled), "timestamp" := timestamp]
    }
  }
}
