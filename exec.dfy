/**
 * The agent's run (pkg/exec/exec.go): the argument check, then nonce,
 * report, machine UUID, public address and submission, each step only
 * after the previous one succeeded. The attestation server's answers and
 * the interface address list are inputs.
 */
module Exec {
  import opened Wrappers
  import opened Errors
  import opened Hex
  import opened Text
  import Decimal
  import Tpm
  import Report
  import Uuid
  import Utils

  const CmdArgAttestationServer := "kommmodity.attestation.server"

  /** net.IPNet.IP as its bytes (4 or 16 of them), or an address of another kind. */
  datatype InterfaceAddr = IPNet(ip: seq<byte>) | OtherAddr

  const V4InV6Prefix: seq<byte> := [0, 0, 0, 0, 0, 0, 0, 0, 0, 0, 255, 255]
  const IPv6Loopback: seq<byte> := [0, 0, 0, 0, 0, 0, 0, 0, 0, 0, 0, 0, 0, 0, 0, 1]

  /** net.IP.To4: the four bytes of an IPv4 address, in either of its two forms. */
  function To4(ip: seq<byte>): (r: Option<seq<byte>>)
    ensures r.Some? ==> |r.value| == 4
    ensures r.Some? <==> |ip| == 4 || (|ip| == 16 && ip[..12] == V4InV6Prefix)
  {
    if |ip| == 4 then Some(ip)
    else if |ip| == 16 && ip[..12] == V4InV6Prefix then Some(ip[12..])
    else None
  }

  /** net.IP.IsLoopback: 127.0.0.0/8, or ::1. */
  predicate IsLoopback(ip: seq<byte>) {
    var v4 := To4(ip);
    if v4.Some? then v4.value[0] == 127 else ip == IPv6Loopback
  }

  /** net.IP.IsLinkLocalUnicast: 169.254.0.0/16, or fe80::/10. */
  predicate IsLinkLocalUnicast(ip: seq<byte>) {
    var v4 := To4(ip);
    if v4.Some? then v4.value[0] == 169 && v4.value[1] == 254
    else |ip| == 16 && ip[0] == 0xfe && ip[1] / 64 == 2
  }

  /** isPrivateIP: the first two bytes fall in 10/8, 172.16/12 or 192.168/16. */
  predicate IsPrivateIP(ip: seq<byte>)
    requires |ip| == 4
  {
    ip[0] == 10 || (ip[0] == 172 && ip[1] >= 16 && ip[1] <= 31) || (ip[0] == 192 && ip[1] == 168)
  }

  /** The address as a 32-bit number, first byte most significant. */
  function Addr32(ip: seq<byte>): (n: nat)
    requires |ip| == 4
    ensures n < 0x1_0000_0000
  {
    ip[0] as int * 0x100_0000 + ip[1] as int * 0x1_0000 + ip[2] as int * 0x100 + ip[3] as int
  }

  /** ip lies between the addresses first and last, both included. */
  predicate InRange(ip: seq<byte>, first: seq<byte>, last: seq<byte>)
    requires |ip| == 4 && |first| == 4 && |last| == 4
  {
    Addr32(first) <= Addr32(ip) <= Addr32(last)
  }

  /** The three private address blocks listed in section 3 of RFC 1918. */
  predicate InPrivateBlock(ip: seq<byte>)
    requires |ip| == 4
  {
    || InRange(ip, [10, 0, 0, 0], [10, 255, 255, 255])
    || InRange(ip, [172, 16, 0, 0], [172, 31, 255, 255])
    || InRange(ip, [192, 168, 0, 0], [192, 168, 255, 255])
  }

  /** isPrivateIP tests exactly the three private blocks of RFC 1918. */
  lemma PrivateIsRFC1918(ip: seq<byte>)
    requires |ip| == 4
    ensures IsPrivateIP(ip) <==> InPrivateBlock(ip)
  {
  }

  /** net.IP.String for an IPv4 address: the four bytes in decimal, separated by dots. */
  function IPv4String(ip: seq<byte>): string
    requires |ip| == 4
  {
    Join([Decimal.Itoa(ip[0]), Decimal.Itoa(ip[1]), Decimal.Itoa(ip[2]), Decimal.Itoa(ip[3])], '.')
  }

  /** One dotted-decimal component: a decimal number below 256. */
  function ParseOctet(s: string): (r: Option<byte>)
  {
    var v := Decimal.ParseDecimal(s);
    if v.Some? && 0 <= v.value < 256 then Some(v.value as byte) else None
  }

  /** Reads dotted-decimal text back into four bytes. */
  function ParseIPv4(s: string): (r: Option<seq<byte>>)
    ensures r.Some? ==> |r.value| == 4
  {
    var parts := Split(s, '.');
    if |parts| != 4 then None
    else
      match (ParseOctet(parts[0]), ParseOctet(parts[1]), ParseOctet(parts[2]), ParseOctet(parts[3]))
      case (Some(a), Some(b), Some(c), Some(d)) => Some([a, b, c, d])
      case _ => None
  }

  /** The dotted text splits at its three dots into the four decimal numbers. */
  lemma IPv4Parts(ip: seq<byte>)
    requires |ip| == 4
    ensures Split(IPv4String(ip), '.') ==
      [Decimal.Itoa(ip[0]), Decimal.Itoa(ip[1]), Decimal.Itoa(ip[2]), Decimal.Itoa(ip[3])]
  {
    var parts := [Decimal.Itoa(ip[0]), Decimal.Itoa(ip[1]), Decimal.Itoa(ip[2]), Decimal.Itoa(ip[3])];
    assert forall k :: 0 <= k < 4 ==> Decimal.AllDigits(parts[k]);
    JoinSplit(parts, '.');
  }

  /** The dotted-decimal text of an IPv4 address reads back as that address. */
  lemma IPv4StringRoundTrip(ip: seq<byte>)
    requires |ip| == 4
    ensures ParseIPv4(IPv4String(ip)) == Some(ip)
  {
    IPv4Parts(ip);
    Decimal.ParseItoa(ip[0]);
    Decimal.ParseItoa(ip[1]);
    Decimal.ParseItoa(ip[2]);
    Decimal.ParseItoa(ip[3]);
    assert ip == [ip[0], ip[1], ip[2], ip[3]];
  }

  /** An address getPublicIP accepts: an IPNet that is IPv4, not loopback, not link-local, not private. */
  predicate IsPublicCandidate(a: InterfaceAddr) {
    && a.IPNet?
    && !IsLoopback(a.ip)
    && !IsLinkLocalUnicast(a.ip)
    && To4(a.ip).Some?
    && !IsPrivateIP(To4(a.ip).value)
  }

  /** The index of the first acceptable address, or |addrs| when there is none. */
  function FirstPublic(addrs: seq<InterfaceAddr>): (k: nat)
    ensures k <= |addrs|
    ensures forall j :: 0 <= j < k ==> !IsPublicCandidate(addrs[j])
    ensures k < |addrs| ==> IsPublicCandidate(addrs[k])
  {
    if addrs == [] || IsPublicCandidate(addrs[0]) then 0 else 1 + FirstPublic(addrs[1..])
  }

  /** The address getPublicIP reports: the first acceptable one in dotted decimal, "" when none is. */
  function PublicIP(addrs: seq<InterfaceAddr>): string
  {
    var k := FirstPublic(addrs);
    if k < |addrs| then IPv4String(To4(addrs[k].ip).value) else ""
  }

  /**
   * getPublicIP: the address list in order, skipping what is not an
   * IPNet, loopback, link-local, not IPv4 or private; the first other
   * address is the answer, and none at all is "" without error.
   */
  method GetPublicIP(addrs: Result<seq<InterfaceAddr>, Error>) returns (r: Result<string, Error>)
    ensures addrs.Err? ==> r == Err(Wrapped("failed to get network interfaces", addrs.error))
    ensures addrs.Ok? ==> r == Ok(PublicIP(addrs.value))
  {
    if addrs.Err? {
      return Err(Wrapped("failed to get network interfaces", addrs.error));
    }
    var list := addrs.value;
    var i := 0;
    while i < |list|
      invariant 0 <= i <= |list|
      invariant forall j :: 0 <= j < i ==> !IsPublicCandidate(list[j])
    {
      var addr := list[i];
      if !addr.IPNet? || IsLoopback(addr.ip) || IsLinkLocalUnicast(addr.ip) {
        i := i + 1;
        continue;
      }
      var ip := To4(addr.ip);
      if ip.None? {
        i := i + 1;
        continue;
      }
      if IsPrivateIP(ip.value) {
        i := i + 1;
        continue;
      }
      FirstPublicAt(list, i);
      return Ok(IPv4String(ip.value));
    }
    FirstPublicAt(list, i);
    return Ok("");
  }

  lemma {:induction false} FirstPublicAt(addrs: seq<InterfaceAddr>, i: nat)
    requires i <= |addrs|
    requires forall j :: 0 <= j < i ==> !IsPublicCandidate(addrs[j])
    requires i < |addrs| ==> IsPublicCandidate(addrs[i])
    ensures FirstPublic(addrs) == i
  {
    if i > 0 {
      FirstPublicAt(addrs[1..], i - 1);
    }
  }

  /**
   * The reported address is empty exactly when no address is acceptable,
   * and otherwise it is the text of a public IPv4 address from the list.
   */
  lemma PublicIPChoice(addrs: seq<InterfaceAddr>)
    ensures PublicIP(addrs) == "" <==> forall j :: 0 <= j < |addrs| ==> !IsPublicCandidate(addrs[j])
    ensures PublicIP(addrs) != "" ==>
      exists j :: 0 <= j < |addrs| && IsPublicCandidate(addrs[j])
        && ParseIPv4(PublicIP(addrs)) == To4(addrs[j].ip)
        && !InPrivateBlock(To4(addrs[j].ip).value)
  {
    var k := FirstPublic(addrs);
    if k < |addrs| {
      var v4 := To4(addrs[k].ip).value;
      IPv4StringRoundTrip(v4);
      PrivateIsRFC1918(v4);
    }
  }

  /** The argument map names a non-empty attestation server. */
  predicate ServerGiven(args: map<string, string>) {
    CmdArgAttestationServer in args && args[CmdArgAttestationServer] != ""
  }

  /** `[]byte(s)`: one byte per character. */
  function ToBytes(s: string): (b: Tpm.Bytes)
    ensures |b| == |s|
    ensures forall i :: 0 <= i < |s| && s[i] as int < 256 ==> b[i] == s[i] as int
  {
    seq(|s|, i requires 0 <= i < |s| => (s[i] as int % 256) as byte)
  }

  /** The steps of a run, in the order they are taken. */
  datatype Step = GetNonce | GenerateReport | GetMachineUUID | GetPublicIPStep | PostReport

  const AllSteps := [GetNonce, GenerateReport, GetMachineUUID, GetPublicIPStep, PostReport]

  datatype NodeInfo = NodeInfo(uuid: string, ip: string)

  /** The body of the submission: the nonce as received, the report, and the node's identity. */
  datatype ReportRequest = ReportRequest(nonce: string, report: Report.RestReport, node: NodeInfo)

  /**
   * What the report step gives: a report exactly when every probe and the
   * TPM steps succeed; the first failing probe's error when the TPM steps
   * succeed and a probe fails; a report holds one component per probe, in
   * order, and the TPM evidence taken over the nonce.
   */
  predicate ReportOutcome(probes: seq<Report.Attestable>, nonce: Tpm.Bytes, host: Tpm.Host, now: int,
                          report: Result<Report.RestReport, Error>)
  {
    && (report.Ok? <==> Report.FirstFailure(probes) == |probes| && Report.HeldTpmEvidence(nonce, host).Some?)
    && (Report.HeldTpmEvidence(nonce, host).Some? && Report.FirstFailure(probes) < |probes| ==>
          report == Err(Report.FailureOf(probes[Report.FirstFailure(probes)])))
    && (report.Ok? ==>
          && |report.value.components| == |probes|
          && (forall j :: 0 <= j < |probes| ==> report.value.components[j] == Report.Component(probes[j]))
          && Report.HeldTpmEvidence(nonce, host).Some?
          && Report.CarriesTpm(report.value, Report.HeldTpmEvidence(nonce, host).value, now))
  }

  /**
   * The report step: the eight probes registered in their fixed order and
   * a report generated over the nonce. It succeeds exactly when every
   * probe and the TPM steps succeed, and a report holds one component per
   * probe, in order.
   */
  method GenerateAll(probes: seq<Report.Attestable>, nonce: Tpm.Bytes, host: Tpm.Host, now: int)
    returns (report: Result<Report.RestReport, Error>)
    requires |probes| == 8
    ensures report.Ok? <==> Report.FirstFailure(probes) == |probes| && Report.HeldTpmEvidence(nonce, host).Some?
    ensures Report.HeldTpmEvidence(nonce, host).Some? && Report.FirstFailure(probes) < |probes| ==>
      report == Err(Report.FailureOf(probes[Report.FirstFailure(probes)]))
    ensures report.Ok? ==>
      && |report.value.components| == |probes|
      && (forall j :: 0 <= j < |probes| ==> report.value.components[j] == Report.Component(probes[j]))
      && Report.HeldTpmEvidence(nonce, host).Some?
      && Report.CarriesTpm(report.value, Report.HeldTpmEvidence(nonce, host).value, now)
  {
    var rep := new Report.AttestableReport.All(probes[0], probes[1], probes[2], probes[3],
                                               probes[4], probes[5], probes[6], probes[7]);
    assert rep.attestables == probes;
    var calls;
    report, calls := rep.GenerateHeld(nonce, host, now);
    Report.HeldEvidenceOf(nonce, host);
    var p := Tpm.FirstPresent(host.present);
    if p.Some? {
      Report.TpmPhaseShape(Some(Tpm.Handle(p.value, false)), nonce, host.chip);
    }
  }

  /**
   * Execute. The server's answers are inputs: `nonceReply` for GetNonce and
   * `postReply` for PostReport (None when it succeeds). `probes` are the
   * eight probes NewAllAttestableReport registers, seen through their
   * results in this run. `taken` counts the steps of AllSteps that were
   * entered: each one only after the previous one succeeded, and a failing
   * step's error, wrapped with the step's context, is the run's error.
   */
  method Execute(args: map<string, string>, nonceReply: Result<string, Error>, postReply: Option<Error>,
                 probes: seq<Report.Attestable>, host: Tpm.Host, now: int,
                 read: Utils.ReadFile, parse: Uuid.Parser, addrs: Result<seq<InterfaceAddr>, Error>)
    returns (err: Option<Error>, taken: nat, report: Result<Report.RestReport, Error>, sent: Option<ReportRequest>)
    requires |probes| == 8
    ensures taken <= |AllSteps|
    ensures err.None? <==> taken == |AllSteps| && postReply.None?
    ensures sent.Some? <==> taken == |AllSteps|
    // the run as a whole
    ensures taken == |AllSteps| <==>
      && ServerGiven(args) && nonceReply.Ok?
      && Report.FirstFailure(probes) == |probes| && Report.HeldTpmEvidence(ToBytes(nonceReply.value), host).Some?
      && Uuid.Raw(read) != "" && parse(ToLower(Uuid.Raw(read))).Ok?
      && addrs.Ok?
    // the argument check
    ensures taken == 0 <==> !ServerGiven(args)
    ensures taken == 0 ==> err == Some(ArgMissing(CmdArgAttestationServer))
    // GetNonce
    ensures taken == 1 <==> ServerGiven(args) && nonceReply.Err?
    ensures taken == 1 ==> err == Some(Wrapped("failed to get nonce", nonceReply.error))
    // Generate
    ensures taken >= 2 ==> ReportOutcome(probes, ToBytes(nonceReply.value), host, now, report)
    ensures taken == 2 <==> taken >= 2 && report.Err?
    ensures taken == 2 ==> err == Some(Wrapped("failed to generate report", report.error))
    // GetMachineUUID
    ensures taken == 3 <==> taken >= 3 && (Uuid.Raw(read) == "" || parse(ToLower(Uuid.Raw(read))).Err?)
    ensures taken == 3 && Uuid.Raw(read) == "" ==> err == Some(Wrapped("failed to get machine UUID", UUIDNotFound))
    ensures taken == 3 && Uuid.Raw(read) != "" ==>
      err == Some(Wrapped("failed to get machine UUID",
        Wrapped("invalid UUID in SMBIOS (" + Uuid.Quoted(Uuid.Raw(read)) + ")", parse(ToLower(Uuid.Raw(read))).error)))
    // GetPublicIP
    ensures taken == 4 <==> taken >= 4 && addrs.Err?
    ensures taken == 4 ==>
      err == Some(Wrapped("failed to get public IP", Wrapped("failed to get network interfaces", addrs.error)))
    // PostReport
    ensures taken == 5 ==>
      sent == Some(ReportRequest(nonceReply.value, report.value,
        NodeInfo(Uuid.UUIDString(parse(ToLower(Uuid.Raw(read))).value), PublicIP(addrs.value))))
    ensures taken == 5 && postReply.Some? ==> err == Some(Wrapped("failed to submit report", postReply.value))
  {
    report := Err(External("not generated"));
    sent := None;
    if CmdArgAttestationServer !in args || args[CmdArgAttestationServer] == "" {
      return Some(ArgMissing(CmdArgAttestationServer)), 0, report, sent;
    }
    if nonceReply.Err? {
      return Some(Wrapped("failed to get nonce", nonceReply.error)), 1, report, sent;
    }
    var nonce := nonceReply.value;
    report := GenerateAll(probes, ToBytes(nonce), host, now);
    assert ReportOutcome(probes, ToBytes(nonce), host, now, report);
    if report.Err? {
      return Some(Wrapped("failed to generate report", report.error)), 2, report, sent;
    }
    var uuid := Uuid.GetMachineUUID(read, parse);
    if uuid.Err? {
      return Some(Wrapped("failed to get machine UUID", uuid.error)), 3, report, sent;
    }
    var publicIP := GetPublicIP(addrs);
    if publicIP.Err? {
      return Some(Wrapped("failed to get public IP", publicIP.error)), 4, report, sent;
    }
    sent := Some(ReportRequest(nonce, report.value, NodeInfo(uuid.value, publicIP.value)));
    if postReply.Some? {
      return Some(Wrapped("failed to submit report", postReply.value)), 5, report, sent;
    }
    return None, 5, report, sent;
  }
}
