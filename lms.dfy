/**
 * pkg/lms/lms.go repeats pkg/lsm/lsm.go line for line under another
 * package name; its check is the same function.
 */
module Lms {
  import opened Wrappers
  import opened Errors
  import opened Text
  import Lsm

  /** IsLMSEnabled: SELinux enforcing, or else AppArmor enabled, with the same failures as IsLSMEnabled. */
  function IsLMSEnabled(selinux: Result<string, Error>, apparmor: Result<string, Error>): (r: Result<bool, Error>)
    ensures selinux.Err? ==>
      r == Err(Wrapped("failed to check SELinux status", Wrapped("failed to read SELinux enforce file", selinux.error)))
    ensures selinux.Ok? && Padded(selinux.value, "1") ==> r == Ok(true)
    ensures selinux.Ok? && !Padded(selinux.value, "1") && apparmor.Err? ==>
      r == Err(Wrapped("failed to check AppArmor status", Wrapped("failed to read AppArmor enabled file", apparmor.error)))
    ensures selinux.Ok? && apparmor.Ok? ==> r == Ok(Padded(selinux.value, "1") || Padded(apparmor.value, "Y"))
  {
    Lsm.IsLSMEnabled(selinux, apparmor)
  }
}
