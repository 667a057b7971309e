/**
 * The Linux Security Module check (pkg/lsm/lsm.go): SELinux enforcing, or
 * else AppArmor enabled. The two kernel files are given as their read
 * results; the AppArmor file is the one the AppArmor probe reads.
 */
module Lsm {
  import opened Wrappers
  import opened Errors
  import opened Text
  import AppArmor

  const SELinuxEnabledPath := "/sys/fs/selinux/enforce"

  /** isSELinuxEnabled: the enforce file reads "1", with only white space around it. */
  function IsSELinuxEnabled(file: Result<string, Error>): (r: Result<bool, Error>)
    ensures r.Err? <==> file.Err?
    ensures file.Err? ==> r.error == Wrapped("failed to read SELinux enforce file", file.error)
    ensures file.Ok? ==> (r.value <==> Padded(file.value, "1"))
  {
    match file
    case Err(e) => Err(Wrapped("failed to read SELinux enforce file", e))
    case Ok(data) =>
      TrimSpaceIs(data, "1");
      Ok(TrimSpace(data) == "1")
  }

  /**
   * IsLSMEnabled: an SELinux failure is reported as such; SELinux
   * enforcing answers true at once; only otherwise does the AppArmor
   * answer, or its failure, decide.
   */
  function IsLSMEnabled(selinux: Result<string, Error>, apparmor: Result<string, Error>): (r: Result<bool, Error>)
    ensures selinux.Err? ==>
      r == Err(Wrapped("failed to check SELinux status", Wrapped("failed to read SELinux enforce file", selinux.error)))
    ensures selinux.Ok? && Padded(selinux.value, "1") ==> r == Ok(true)
    ensures selinux.Ok? && !Padded(selinux.value, "1") && apparmor.Err? ==>
      r == Err(Wrapped("failed to check AppArmor status", Wrapped("failed to read AppArmor enabled file", apparmor.error)))
    ensures selinux.Ok? && apparmor.Ok? ==> r == Ok(Padded(selinux.value, "1") || Padded(apparmor.value, "Y"))
  {
    var selinuxEnabled := IsSELinuxEnabled(selinux);
    if selinuxEnabled.Err? then Err(Wrapped("failed to check SELinux status", selinuxEnabled.error))
    else if selinuxEnabled.value then Ok(true)
    else
      var appArmorEnabled := AppArmor.IsAppArmorEnabled(apparmor);
      if appArmorEnabled.Err? then Err(Wrapped("failed to check AppArmor status", appArmorEnabled.error))
      else Ok(appArmorEnabled.value)
  }

  /**
   * The AppArmor file is never consulted when the SELinux read fails or
   * SELinux is enforcing: any two AppArmor answers give the same result.
   */
  lemma AppArmorNotConsulted(selinux: Result<string, Error>, apparmor1: Result<string, Error>, apparmor2: Result<string, Error>)
    requires selinux.Err? || Padded(selinux.value, "1")
    ensures IsLSMEnabled(selinux, apparmor1) == IsLSMEnabled(selinux, apparmor2)
  {
  }
}
