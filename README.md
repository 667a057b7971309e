# Kommodity attestation extension — a Dafny model

The Kommodity attestation extension runs on a Talos node. It reads the kernel
command line to find the attestation server. It asks that server for a nonce
and opens the node's TPM. It reads PCR 7 (where Talos records its boot
measurements) and quotes it over the nonce. It then collects a measurement and
evidence from eight probes: AppArmor, extensions, image layers, kernel
lockdown, Secure Boot, SELinux, the squashfs root and the Talos version. It
reads the machine UUID from SMBIOS, picks a public IPv4 address, and posts the
report.

This project models that core in Dafny:

| module | models |
|---|---|
| `Tpm` | the TPM device wrapper (`pkg/tpm`) |
| `Report` | report assembly (`pkg/report`) |
| `Exec` | the run (`pkg/exec`) |
| `Cmdline` | the command-line parser (`pkg/cmdline`) |
| `Uuid` | the UUID lookup (`pkg/uuid`) |
| `Utils` | the measurement encoding (`pkg/utils`) |
| `AppArmor`, `SELinux`, `SecureBoot`, `Lockdown`, `Squashfs`, `Version`, `Image`, `Extensions` | the probes |
| `Lsm`, `Lms` | the security-module checks |

Supporting modules:
- `Wrappers`: `Option` and `Result`.
- `Errors`: the sentinel errors, and `Wrapped` for `fmt.Errorf("...: %w")`.
- `Text`: `strings.TrimSpace`, `Fields`, `Split`, `HasSuffix`, `TrimSuffix`, `Contains` and `ToLower`.
- `Hex`: `encoding/hex`.
- `Decimal`: `strconv.Itoa`.

What the model does with the system's surroundings:
- The Go structs whose methods update fields become classes: the TPM `Device`, the `AttestableReport`, and each probe's `Attestable`.
- File contents, directory listings, the interface address list, the clock and the attestation server's replies are parameters.
- The TPM and the YAML, dotenv and UUID parsers are oracle functions passed in.
- SHA-512, SHA-256 and PEM encoding are fixed, uninterpreted functions.

## Model

| member | source | states |
|---|---|---|
| Utils.EncodeMeasurement | pkg/utils/utils.go:26-30 | a measurement is 128 lower-case hex digits that decode back to the SHA-512 digest of the data |
| Utils.BoolToMeasurement | pkg/utils/utils.go:14-23 | true is measured as the word "enabled", false as "disabled" |
| Utils.BoolMeasurementsDiffer | pkg/utils/utils.go:14-23 | the two words differ, so the two measurements differ whenever SHA-512 separates them |
| Utils.MeasurementDeterminesDigest | pkg/utils/utils.go:26-30 | two measurements are equal exactly when the digests are equal |
| Utils.UnixNowString | pkg/utils/utils.go:32-34 | the timestamp text parses back to the clock reading |
| Utils.FormatBool | pkg/apparmor/apparmor.go:52-57 | "true" exactly for true, "false" exactly for false |
| Hex.EncodeToString | pkg/tpm/tpm.go:67 | hex output is twice as long as the input and is lower-case hex |
| Hex.DecodeEncode | pkg/tpm/tpm.go:67 | decoding the hex of any byte string gives that byte string back |
| Hex.EncodeDecode | pkg/tpm/tpm.go:67 | every even-length lower-case hex text is the encoding of what it decodes to |
| Hex.EncodeInjective | pkg/report/report.go:127-130 | distinct byte strings have distinct hex |
| Decimal.Itoa | pkg/report/report.go:121 | the decimal text is non-empty digits, with a leading '-' for negatives |
| Decimal.ParseItoa | pkg/report/report.go:119-122 | the decimal text of any integer parses back to it |
| Decimal.ItoaInjective | pkg/report/report.go:119-122 | distinct integers have distinct decimal text, so no PCR key collides |
| Text.TrimSpace | pkg/lockdown/lockdown.go:67 | defined as the text between the leading and the trailing white space; TrimSpaceIs states what it gives |
| Text.TrimSpaceIs | pkg/apparmor/apparmor.go:65 | the trimmed text equals a word exactly when the text is that word with only white space around it |
| Text.Fields | pkg/cmdline/cmdline.go:24 | every field is non-empty and free of white space; FieldsSpaces and FieldsWord fix where fields begin and end |
| Text.FieldsSpaces | pkg/cmdline/cmdline.go:24 | any white space before the text starts no field |
| Text.FieldsWord | pkg/cmdline/cmdline.go:24 | a non-empty word followed by white space or by nothing is exactly the first field, and the fields of the rest follow |
| Text.FieldsJoin | pkg/cmdline/cmdline.go:24 | non-empty words without white space, joined by single spaces, split back into exactly those words |
| Text.FieldsConcat | pkg/cmdline/cmdline.go:24 | the fields, put back together, are the text with its white space removed |
| Text.Split | pkg/cmdline/cmdline.go:26 | splitting gives at least one part and no part holds the separator |
| Text.SplitCount | pkg/cmdline/cmdline.go:26-28 | the number of parts is one more than the number of separators |
| Text.SplitJoin | pkg/cmdline/cmdline.go:26 | joining the parts with the separator rebuilds the text |
| Text.JoinSplit | pkg/exec/exec.go:91 | splitting parts that are free of the separator, after joining them, gives the parts back |
| Text.Contains | pkg/squashfs/squashfs.go:82 | true exactly when the text has the substring at some position |
| Text.TrimSuffix | pkg/extensions/extensions.go:85 | with the suffix present, the result followed by the suffix is the name; otherwise the name is unchanged |
| Text.ToLower | pkg/uuid/uuid.go:36 | lower-casing keeps the length and maps each character on its own |
| Cmdline.ParamKey | pkg/cmdline/cmdline.go:26-31 | a parameter's key is its text before the first '=' |
| Cmdline.ParamValue | pkg/cmdline/cmdline.go:28-32 | with exactly one '=' the value is the text after it and key '=' value rebuilds the parameter; otherwise the value is "" |
| Cmdline.ParseProcCmdline | pkg/cmdline/cmdline.go:16-36 | a read failure is wrapped with the path; otherwise the map is the parameters entered in order |
| Cmdline.BuildMapKeys | pkg/cmdline/cmdline.go:24-33 | the map's keys are exactly the keys of the parameters |
| Cmdline.LastWins | pkg/cmdline/cmdline.go:24-33 | when no later parameter has the same key, a parameter's value is the one stored under its key |
| Tpm.Send | pkg/tpm/tpm.go:54 | a nil handle panics, a closed handle refuses every command, an open handle carries the device's answer |
| Tpm.Uint32 | pkg/tpm/tpm.go:62 | the index is reduced to 32 bits and is unchanged when it already fits |
| Tpm.FirstPresent | pkg/tpm/tpm.go:154-167 | /dev/tpmrm0 is preferred; /dev/tpm0 is chosen only when /dev/tpmrm0 is absent; none exists exactly when both are absent |
| Tpm.QuoteCheck | pkg/tpm/tpm.go:75-85 | Quote's preconditions fail in order: no handle, then empty nonce, then an empty or missing selection |
| Tpm.AkPublicPem | pkg/tpm/tpm.go:87-101 | a created and exported attestation key always has a non-empty PEM encoding |
| Tpm.Device.constructor | pkg/tpm/tpm.go:32-34 | a new device holds the nonce, has no handle and caches nothing |
| Tpm.Device.OpenTPM | pkg/tpm/tpm.go:153-170 | opens the first device node that exists; a failure to open it is reported with its path and there is no fallback; with no node it is TPMNotFound |
| Tpm.Device.ReadPCRs | pkg/tpm/tpm.go:49-71 | all or nothing: either every selected index is in the bank and the map holds exactly those indices with the hex of their values, or the read fails naming the first index missing |
| Tpm.Device.Quote | pkg/tpm/tpm.go:74-124 | the preconditions in order; the key's PEM is cached once exported; the signature is cached only when the quote and its encoding succeed; after a success the public key is available |
| Tpm.Device.Signature | pkg/tpm/tpm.go:127-133 | the cached signature; NoSignatureCached exactly when none is cached |
| Tpm.Device.GetTPMPublicKey | pkg/tpm/tpm.go:145-151 | the cached PEM key; NoPublicKeyCached exactly when none is cached |
| Tpm.Device.Close | pkg/tpm/tpm.go:136-142 | the handle, if any, becomes closed; never an error |
| Tpm.OpenTPMDevice | pkg/tpm/tpm.go:31-46 | as written: success exactly when the chosen node opens, and the device returned already has a closed handle |
| Tpm.OpenHeldTPMDevice | pkg/tpm/tpm.go:31-46 | the same outcomes and errors, with the handle left open |
| Tpm.GetPCRSelection | pkg/tpm/tpm.go:173-180 | the indices are sorted in place and keep their multiset; the selection is the sorted indices in the SHA-256 bank |
| Tpm.SortedPermutationUnique | pkg/tpm/tpm.go:174 | two sorted arrangements of the same multiset are equal, so the selection depends only on which indices were given |
| Report.FirstFailure | pkg/report/report.go:101-110 | the index of the first attestable whose Measure or Evidence fails; all before it succeed |
| Report.Rounds | pkg/report/report.go:101-117 | n rounds make 2n calls |
| Report.RoundsOrder | pkg/report/report.go:101-117 | call 2k is Measure on attestable k and call 2k+1 is Evidence on it |
| Report.TpmPhaseShape | pkg/report/report.go:79-99 | the TPM steps succeed only on an open handle with a nonce, and give PCR 7 alone with a non-empty signature and public key |
| Report.ClosedDeviceNeverReports | pkg/report/report.go:74-83 | on a device whose handle is already closed, the PCR read fails with the closed-file error |
| Report.ConvertPCRs | pkg/report/report.go:119-122 | the keys are exactly the decimal texts of the PCR indices, each with its value; every key parses back to its index |
| Report.SinglePCRMap | pkg/report/report.go:119-122 | a read of PCR 7 alone converts to the one entry "7" |
| Report.ReadTalosPCRs | pkg/report/report.go:79-84 | the PCR read over the PCR 7 selection, wrapped as Generate wraps it |
| Report.ReadTpmEvidence | pkg/report/report.go:79-99 | the TPM steps (selection, read, quote, signature, key) give exactly the TPM phase's result for the device's handle and nonce |
| Report.CollectComponents | pkg/report/report.go:101-117 | calls follow the fail-fast trace; a result exactly when no attestable fails, with one component per attestable in order; otherwise the first failure's error, naming it |
| Report.AttestableReport.constructor | pkg/report/report.go:57-61 | a new report has no attestables |
| Report.AttestableReport.All | pkg/report/report.go:41-54 | the eight probes in their fixed order |
| Report.AttestableReport.AddAttestable | pkg/report/report.go:64-68 | appends at the end, keeps the earlier ones and returns the same report |
| Report.AttestableReport.Assemble | pkg/report/report.go:79-131 | a TPM failure calls no attestable; otherwise the calls are the fail-fast trace; a report exists exactly when nothing fails, with every field as Generate fills it |
| Report.AttestableReport.Generate | pkg/report/report.go:71-132 | as written: never produces a report and never calls an attestable |
| Report.AttestableReport.GenerateHeld | pkg/report/report.go:71-132 | open and TPM failures call no attestable; a report exists exactly when the TPM steps and every attestable succeed; it has the components in order, PCR "7", the hex outputs and the timestamp |
| Report.FirstFailureAt | pkg/report/report.go:101-110 | an index with all earlier attestables succeeding and itself failing is the first failure |
| AppArmor.IsAppArmorEnabled | pkg/apparmor/apparmor.go:59-66 | a read failure is wrapped; otherwise enabled exactly when the file is "Y" with only white space around it |
| AppArmor.Attestable.constructor | pkg/apparmor/apparmor.go:18-21 | a new probe is disabled with no timestamp |
| AppArmor.Attestable.Measure | pkg/apparmor/apparmor.go:29-39 | a failure records nothing; otherwise status and timestamp are stored and the measurement agrees with the status Evidence reports |
| AppArmor.Attestable.Evidence | pkg/apparmor/apparmor.go:52-57 | exactly two entries: "apparmor" is FormatBool of the status ("true" or "false"), and the timestamp |
| AppArmor.Attestable.GetPCRs | pkg/apparmor/apparmor.go:42-44 | no PCR |
| AppArmor.Attestable.Quote | pkg/apparmor/apparmor.go:47-49 | the nonce back unchanged |
| SELinux.GetSELinuxMode | pkg/selinux/selinux.go:59-68 | a read failure is wrapped; "1" is Enforcing, "0" is Permissive (each only with white space around), anything else is "" without error |
| SELinux.Attestable.constructor | pkg/selinux/selinux.go:17-20 | a new probe has no mode and no timestamp |
| SELinux.Attestable.Measure | pkg/selinux/selinux.go:28-38 | a failure records nothing; otherwise mode and timestamp are stored and the measurement is that of the mode Evidence reports |
| SELinux.Attestable.Evidence | pkg/selinux/selinux.go:51-56 | exactly the mode under "selinux" and the timestamp |
| SELinux.Attestable.GetPCRs | pkg/selinux/selinux.go:41-43 | no PCR |
| SELinux.Attestable.Quote | pkg/selinux/selinux.go:46-48 | the nonce back unchanged |
| SecureBoot.IsSecureBootEnabled | pkg/secureboot/secureboot.go:51-59 | a read failure is wrapped; an empty variable panics; otherwise enabled exactly when the last byte is 1 |
| SecureBoot.EfiVariableValue | pkg/secureboot/secureboot.go:58-59 | on an efivarfs file (four attribute bytes, then the value) the test reads the value byte |
| SecureBoot.Attestable.constructor | pkg/secureboot/secureboot.go:19-22 | a new probe is disabled with no timestamp |
| SecureBoot.Attestable.Measure | pkg/secureboot/secureboot.go:30-40 | a failure records nothing; otherwise status and timestamp are stored and the measurement agrees with Evidence |
| SecureBoot.Attestable.Evidence | pkg/secureboot/secureboot.go:43-48 | exactly two entries: "secure-boot" is FormatBool of the status ("true" or "false"), and the timestamp |
| Lockdown.WordRun | pkg/lockdown/lockdown.go:15 | the longest run of `\w` characters at a position |
| Lockdown.MatchText | pkg/lockdown/lockdown.go:15 | a match is an opening bracket, word characters and a closing bracket |
| Lockdown.FindFrom | pkg/lockdown/lockdown.go:69-70 | the leftmost match at or after a position, or none when nothing matches there |
| Lockdown.FindString | pkg/lockdown/lockdown.go:69-70 | the result is "" or a bracketed word |
| Lockdown.FindStringLeftmost | pkg/lockdown/lockdown.go:69-70 | "" exactly when nothing matches; otherwise the text of the leftmost match |
| Lockdown.GetKernelLockdownMode | pkg/lockdown/lockdown.go:61-73 | a read failure is wrapped; otherwise the leftmost bracketed word of the trimmed text, lower-cased |
| Lockdown.ModeShape | pkg/lockdown/lockdown.go:61-73 | a mode is "" or a bracketed word with no upper-case letter |
| Lockdown.LowerBracketWord | pkg/lockdown/lockdown.go:72 | lower-casing keeps a bracketed word bracketed |
| Lockdown.ActiveModeFound | pkg/lockdown/lockdown.go:61-73 | for any content with a bracketed word and no opening bracket before it, whatever follows, the mode is that word lower-cased with its brackets |
| Lockdown.Attestable.constructor | pkg/lockdown/lockdown.go:19-22 | a new probe has no mode and no timestamp |
| Lockdown.Attestable.Measure | pkg/lockdown/lockdown.go:30-40 | a failure records nothing; otherwise mode and timestamp are stored and the measurement is that of the mode Evidence reports |
| Lockdown.Attestable.Evidence | pkg/lockdown/lockdown.go:53-58 | exactly the mode under "lockdown" and the timestamp |
| Lockdown.Attestable.GetPCRs | pkg/lockdown/lockdown.go:43-45 | no PCR |
| Lockdown.Attestable.Quote | pkg/lockdown/lockdown.go:48-50 | the nonce back unchanged |
| Squashfs.IsRootSquashfsLine | pkg/squashfs/squashfs.go:73-84 | defined as: at least four fields, the second "/", the third "squashfs", the fourth containing "ro" |
| Squashfs.ScanMountLines | pkg/squashfs/squashfs.go:72-85 | found exactly when some line has at least four fields, mount point "/", type squashfs and "ro" in its options |
| Squashfs.IsRootSquashfsReadOnly | pkg/squashfs/squashfs.go:61-88 | an open failure is wrapped; success exactly when a read-only squashfs root is listed, and then true; otherwise an error, never false |
| Squashfs.ShortLinesSkipped | pkg/squashfs/squashfs.go:74-76 | a line with fewer than four fields never counts |
| Squashfs.Attestable.constructor | pkg/squashfs/squashfs.go:19-22 | a new probe is disabled with no timestamp |
| Squashfs.Attestable.Measure | pkg/squashfs/squashfs.go:30-40 | a failure records nothing; success happens exactly when the root is listed, and always records enabled |
| Squashfs.Attestable.Evidence | pkg/squashfs/squashfs.go:53-58 | exactly two entries: "squashfs" is FormatBool of the status ("true" or "false"), and the timestamp |
| Squashfs.Attestable.GetPCRs | pkg/squashfs/squashfs.go:43-45 | no PCR |
| Squashfs.Attestable.Quote | pkg/squashfs/squashfs.go:48-50 | the nonce back unchanged |
| Version.GetVersionID | pkg/version/version.go:75-82 | a read failure is wrapped; otherwise the VERSION_ID entry, "" when absent |
| Version.Decisive | pkg/version/version.go:56-66 | the first candidate that exists and reads; all earlier ones do not |
| Version.GetTalosVersion | pkg/version/version.go:48-73 | the VERSION_ID of the first candidate that exists and reads; an empty result is VersionNotFound |
| Version.DecisiveAt | pkg/version/version.go:56-66 | a candidate with every earlier one unreadable, and itself readable, is the decisive one |
| Version.EtcShadowsUsrLib | pkg/version/version.go:51-66 | a readable /etc/os-release decides, even when it lacks VERSION_ID |
| Version.UsrLibFallback | pkg/version/version.go:51-66 | without a readable /etc/os-release, /usr/lib/os-release decides, else the version is "" |
| Version.Attestable.constructor | pkg/version/version.go:17-20 | a new probe has no version and no timestamp |
| Version.Attestable.Measure | pkg/version/version.go:28-38 | fails exactly when no version is found, recording nothing; otherwise stores a non-empty version and the timestamp and measures the version |
| Version.Attestable.Evidence | pkg/version/version.go:41-46 | exactly the version under "talos-version" and the timestamp |
| Lsm.IsSELinuxEnabled | pkg/lsm/lsm.go:38-45 | a read failure is wrapped; otherwise enabled exactly when the file is "1" with only white space around it |
| Lsm.IsLSMEnabled | pkg/lsm/lsm.go:16-36 | an SELinux failure is reported; SELinux enforcing gives true; otherwise the AppArmor answer or its failure decides |
| Lsm.AppArmorNotConsulted | pkg/lsm/lsm.go:16-24 | when the SELinux read fails or SELinux is enforcing, the AppArmor file does not affect the answer |
| Lms.IsLMSEnabled | pkg/lms/lms.go:16-54 | the same outcomes and errors as the LSM check |
| Uuid.UUIDString | pkg/uuid/uuid.go:41 | 36 characters, dashes exactly at 8, 13, 18 and 23, lower-case hex elsewhere |
| Uuid.UUIDStringGroups | pkg/uuid/uuid.go:41 | the 8-4-4-4-12 groups are the hex of the UUID's byte groups |
| Uuid.UUIDStringInjective | pkg/uuid/uuid.go:41 | distinct UUIDs print differently |
| Uuid.Taken | pkg/uuid/uuid.go:21-29 | the first candidate that reads without error and is non-empty |
| Uuid.GetMachineUUID | pkg/uuid/uuid.go:13-42 | no usable candidate, or a blank one, is UUIDNotFound; a parse failure quotes the raw value; otherwise the canonical text of the parsed UUID |
| Uuid.TakenAt | pkg/uuid/uuid.go:21-29 | a candidate with every earlier one unusable, and itself usable, is the one taken |
| Uuid.BlankFirstCandidateHidesSecond | pkg/uuid/uuid.go:21-33 | a first candidate holding only white space ends the search in UUIDNotFound |
| Image.GetImageLayers | pkg/image/image.go:80-82 | defined as ParseLayers of the fixed layers path |
| Image.ParseLayers | pkg/image/image.go:84-99 | a read failure and a decode failure are each wrapped with the path; otherwise the decoded list |
| Image.Measurement | pkg/image/image.go:47-59 | layer and encoding failures are wrapped; otherwise the 128-digit measurement of the re-encoded list |
| Image.LayerKey | pkg/image/image.go:69-73 | defined as "layer_", the index in decimal, "_" and the field; ParseLayerKeyRoundTrip reads it back |
| Image.ParseLayerKeyRoundTrip | pkg/image/image.go:69 | a layer key reads back as its index and field |
| Image.LayerKeyInjective | pkg/image/image.go:69-73 | two layer keys are equal exactly when index and field are |
| Image.KeysAtSize | pkg/image/image.go:70-73 | each layer writes four distinct keys |
| Image.LayerKeysSize | pkg/image/image.go:68-74 | n layers write 4n distinct keys |
| Image.BaseKeysFresh | pkg/image/image.go:63-74 | "layers_count" and "timestamp" are never layer keys |
| Image.AddLayersKeys | pkg/image/image.go:68-74 | the loop adds exactly the layer keys and keeps every other entry |
| Image.EvidenceKeys | pkg/image/image.go:62-77 | the keys are "layers_count", "timestamp" and the layer keys, with the count and timestamp values |
| Image.EvidenceKeyCount | pkg/image/image.go:62-77 | n layers give 2 + 4n entries |
| Image.EvidenceEntry | pkg/image/image.go:68-74 | the entry of each field of each layer holds that field's value |
| Image.Attestable.constructor | pkg/image/image.go:36-39 | a new probe has no layers and no timestamp |
| Image.Attestable.Measure | pkg/image/image.go:47-59 | as written: the measurement of the layers file, with nothing recorded |
| Image.Attestable.MeasureAndRecord | pkg/image/image.go:47-59 | the same measurement; on success the layers and timestamp are stored |
| Image.Attestable.Evidence | pkg/image/image.go:62-77 | the loop builds exactly the evidence map of the stored layers and timestamp |
| Image.EvidenceAfterMeasure | pkg/image/image.go:47-77 | a new probe measured as written reports "0" layers and an empty timestamp whatever the layers file holds; a recording probe reports the layers read, which differs once the file lists a layer |
| Extensions.FileHash | pkg/extensions/extensions.go:97-101 | 64 lower-case hex digits that decode to the SHA-256 digest of the data |
| Extensions.ParseExtension | pkg/extensions/extensions.go:63-95 | failures to read the config, decode it or read the binary are each wrapped with the path |
| Extensions.ParsedExtension | pkg/extensions/extensions.go:84-94 | a parsed extension is named after its file without ".yaml" and records both files with their hashes |
| Extensions.GetExtensions | pkg/extensions/extensions.go:39-61 | a listing failure is wrapped; otherwise the result is that of processing the entries in order |
| Extensions.CollectExtensions | pkg/extensions/extensions.go:47-60 | the loop yields exactly the listing the entries give in order |
| Extensions.FailureStays | pkg/extensions/extensions.go:52-55 | once a prefix fails, the whole listing fails the same way |
| Extensions.FirstFailing | pkg/extensions/extensions.go:47-55 | the first selected entry that fails to parse; none before it fails |
| Extensions.Selected | pkg/extensions/extensions.go:48-50 | defined as: not a directory and the name ends in ".yaml" |
| Extensions.SelectedFiles | pkg/extensions/extensions.go:47-50 | the selected entries are files ending in ".yaml" from the listing |
| Extensions.ExtensionsSuccess | pkg/extensions/extensions.go:39-61 | with no failing entry the listing succeeds with one extension per selected entry, in order |
| Extensions.ExtensionsFailure | pkg/extensions/extensions.go:39-61 | with a failing entry the listing fails with the error of the first one, naming its file |
| Exec.To4 | pkg/exec/exec.go:81 | four bytes exactly for a 4-byte address or an IPv4-mapped 16-byte one |
| Exec.Addr32 | pkg/exec/exec.go:97-106 | the address as a number below 2^32 |
| Exec.IsLoopback | pkg/exec/exec.go:76 | defined as 127.0.0.0/8 for an IPv4 address and ::1 otherwise |
| Exec.IsLinkLocalUnicast | pkg/exec/exec.go:76 | defined as 169.254.0.0/16 for an IPv4 address and fe80::/10 otherwise |
| Exec.IsPrivateIP | pkg/exec/exec.go:97-106 | defined by the first two bytes as isPrivateIP tests them; PrivateIsRFC1918 proves it equals the RFC 1918 blocks |
| Exec.PrivateIsRFC1918 | pkg/exec/exec.go:97-106 | the private test holds exactly for the three private blocks of RFC 1918 |
| Exec.ParseIPv4 | pkg/exec/exec.go:91 | a parsed address has four bytes |
| Exec.IPv4Parts | pkg/exec/exec.go:91 | the dotted text splits into the four decimal numbers |
| Exec.IPv4String | pkg/exec/exec.go:91 | defined as the four bytes in decimal joined by dots; IPv4StringRoundTrip reads it back |
| Exec.IPv4StringRoundTrip | pkg/exec/exec.go:91 | the dotted-decimal text of an address reads back as that address |
| Exec.FirstPublic | pkg/exec/exec.go:74-92 | the first acceptable address; none before it is acceptable |
| Exec.GetPublicIP | pkg/exec/exec.go:68-95 | a listing failure is wrapped; otherwise the text of the first acceptable address, "" when none is |
| Exec.FirstPublicAt | pkg/exec/exec.go:74-92 | an address with every earlier one rejected, and itself accepted, is the first acceptable one |
| Exec.PublicIPChoice | pkg/exec/exec.go:68-106 | "" exactly when no address is acceptable; otherwise the text of a listed public IPv4 address outside the private blocks |
| Exec.ToBytes | pkg/exec/exec.go:37 | one byte per character, equal to the character below 256 |
| Exec.GenerateAll | pkg/exec/exec.go:35-40 | a report exists exactly when every probe and the TPM steps succeed; with the TPM steps done, a failing probe gives the first failing probe's error; a report has one component per probe, in order, and carries PCR 7, the quote, signature and key of the TPM evidence over the nonce |
| Exec.Execute | pkg/exec/exec.go:20-66 | the steps run in order, each only after the previous one succeeds; a failing step's error, wrapped with its context, is the result; all five steps are taken exactly when the argument, nonce, every probe, the TPM steps, the UUID and the address list succeed; the report's quote is taken over the bytes of the nonce received; the submission carries the nonce, the report, the UUID and the public address |

## Left out

- Network and HTTP: the attestation client, its transport and the JSON encoding are not modelled. The nonce reply and the submission reply are inputs to `Exec.Execute`.
- `net.InterfaceAddrs` is an input list. Each entry is either an IP network with its address bytes or another kind of address.
- The go-tpm, x509 and PEM libraries are not modelled. Their answers are the `Tpm.Chip` oracle.
- Tpm.Device.Quote: closing the attestation key's handle (the deferred `attestationKey.Close`) is not modelled, because the key handle has no observable effect in this model.
- Tpm.Device.ReadPCRs: the bank the library returns is taken as given. Duplicate indices in a selection are not merged.
- The YAML decoder and encoder, the dotenv reader and `uuid.Parse` are oracle functions. Their internal grammar is not modelled.
- `fmt.Errorf` is modelled as a context string wrapped around the cause. The exact message texts beyond those contexts are not modelled.
- Go panics (a nil TPM handle, indexing an empty Secure Boot variable) are modelled as the error `Panic`, not as a crash.
- Text.TrimSpace: only ASCII white space is recognised. Unicode spaces are not.
- Text.Fields: only ASCII white space separates fields.
- Text.ToLower: only ASCII letters are lowered.
- Strings are sequences of characters, one per byte of the Go string. Multi-byte encodings are not modelled.
- Exec.ToBytes: reduces each character modulo 256. This equals Go's conversion only for characters below 256.
- Uuid.GetMachineUUID: `%q` is modelled as plain double quotes around the raw value. Go's escaping of special characters is not modelled.
- Squashfs.IsRootSquashfsReadOnly: the text appended for `scanner.Err()` in the final error is not modelled.
- Squashfs.IsRootSquashfsReadOnly: the scanner's 64 KiB line limit is not modelled. The mount table is split on newlines.
- Clock: the clock is an input. The report takes the Unix time as an integer; the probes' Measure methods take its decimal text.
- Report.AttestableReport.Generate: report assembly sees each attestable as the name, measurement and evidence it yields in the run. The probe classes are modelled on their own, and the model does not prove that they are the values the report receives.
- Report.AttestableReport.Generate: attestables are called through that value view, so aliasing between probes is not modelled.
- `extensions.Attestable` and the OpenAPI client and model packages are not part of this model. The report's extensions component is an input.
- Exec.GenerateAll: uses the corrected device session `Report.AttestableReport.GenerateHeld` (see Findings). The run as written always fails at the report step, as `Report.AttestableReport.Generate` shows.
- The program entry point is not modelled as a member. Logging and the wiring from `Cmdline.ParseProcCmdline` to `Exec.Execute` are left out.
- Image.Attestable.Name: the fixed names of the probes are constants (`Name` in each module) rather than methods. The same holds for the `Name` method of the other probes.

## Findings

| source | as written | input that shows it | evidently intended | confidence | as-written member | corrected member |
|---|---|---|---|---|---|---|
| pkg/tpm/tpm.go:41-45 | `OpenTPMDevice` defers `Close`, so the device it returns already has a closed handle. Every later TPM command on it fails, and `Generate` can never return a report. | any host with `/dev/tpmrm0` present and openable: `Generate` fails at "failed to read PCRs" with the closed-file error | keep the handle open until the report is assembled, then close it | not executed | Report.AttestableReport.Generate, Report.ClosedDeviceNeverReports | Report.AttestableReport.GenerateHeld |
| pkg/image/image.go:47-66 | `Measure` never stores the layers or the timestamp in the probe. `Evidence` always reports "layers_count" "0" and an empty timestamp. | a layers file listing one layer: after `Measure`, `Evidence` gives `{"layers_count": "0", "timestamp": ""}` | `Measure` records the layers it measured and the time, as every other probe does | not executed | Image.Attestable.Measure, Image.EvidenceAfterMeasure | Image.Attestable.MeasureAndRecord |
