/**
 * Report assembly (pkg/report/report.go): one TPM session, the PCR read,
 * quote, signature and public key, then one component per registered
 * attestable in registration order. The first failure aborts with no report.
 *
 * An attestable is seen through what its Name, Measure and Evidence calls
 * return during the run; `Call` records which of those calls were made.
 */
module Report {
  import opened Wrappers
  import opened Errors
  import opened Hex
  import Decimal
  import Utils
  import opened Tpm

  /** Talos extends PCR 7 with its measurements. */
  const TalosPCRIndex := 7

  /** An attestable component and the results its Measure and Evidence return in this run. */
  datatype Attestable = Attestable(
    name: string,
    measure: Result<string, Error>,
    evidence: Result<map<string, string>, Error>)

  datatype ComponentReport = ComponentReport(evidence: map<string, string>, measurement: string, name: string)

  datatype RestReport = RestReport(
    components: seq<ComponentReport>,
    pcrs: map<string, string>,
    quote: string,
    signature: string,
    timestamp: string,
    tpmPublicKey: string)

  /** A call made on the attestable at `index` of the registration list. */
  datatype Call = Measure(index: nat) | Evidence(index: nat)

  /** What the TPM half of Generate obtains. */
  datatype TpmEvidence = TpmEvidence(pcrs: map<int, string>, quote: Bytes, signature: Bytes, publicKey: Bytes)

  predicate Succeeds(a: Attestable) {
    a.measure.Ok? && a.evidence.Ok?
  }

  function Component(a: Attestable): ComponentReport
    requires Succeeds(a)
  {
    ComponentReport(a.evidence.value, a.measure.value, a.name)
  }

  /** The error Generate reports for a failing attestable; it names the attestable. */
  function FailureOf(a: Attestable): Error
    requires !Succeeds(a)
  {
    if a.measure.Err? then Wrapped("failed to measure " + a.name, a.measure.error)
    else Wrapped("failed to get evidence for " + a.name, a.evidence.error)
  }

  /** The index of the first attestable whose Measure or Evidence fails, or |atts| if none does. */
  function FirstFailure(atts: seq<Attestable>): (f: nat)
    ensures f <= |atts|
    ensures forall j :: 0 <= j < f ==> Succeeds(atts[j])
    ensures f < |atts| ==> !Succeeds(atts[f])
  {
    if atts == [] || !Succeeds(atts[0]) then 0 else 1 + FirstFailure(atts[1..])
  }

  /** Measure then Evidence on each of the first n attestables. */
  function Rounds(n: nat): (calls: seq<Call>)
    ensures |calls| == 2 * n
  {
    if n == 0 then [] else Rounds(n - 1) + [Measure(n - 1), Evidence(n - 1)]
  }

  /** In the first n rounds, call 2k is Measure on attestable k and call 2k+1 is Evidence on it. */
  lemma {:induction false} RoundsOrder(n: nat)
    ensures forall k :: 0 <= k < n ==> Rounds(n)[2 * k] == Measure(k) && Rounds(n)[2 * k + 1] == Evidence(k)
  {
    if n > 0 {
      RoundsOrder(n - 1);
      forall k | 0 <= k < n
        ensures Rounds(n)[2 * k] == Measure(k) && Rounds(n)[2 * k + 1] == Evidence(k)
      {
        if k < n - 1 {
          assert Rounds(n)[2 * k] == Rounds(n - 1)[2 * k];
          assert Rounds(n)[2 * k + 1] == Rounds(n - 1)[2 * k + 1];
        }
      }
    }
  }

  /**
   * The calls Generate makes on the attestables once the TPM steps have
   * succeeded: full rounds up to the first failing attestable, and on that
   * one Measure, followed by Evidence only when Measure succeeded.
   */
  function CallTrace(atts: seq<Attestable>): seq<Call>
  {
    var f := FirstFailure(atts);
    Rounds(f) + if f == |atts| then [] else [Measure(f)] + if atts[f].measure.Ok? then [Evidence(f)] else []
  }

  /** The selection Generate uses: PCR 7 of the SHA-256 bank. */
  const TalosSelection := Selection(AlgSHA256, [TalosPCRIndex])

  /**
   * The TPM steps of Generate on a device with handle rwc and nonce:
   * ReadPCRs, Quote, Signature and GetTPMPublicKey over TalosSelection,
   * each failure wrapped with the step's context.
   */
  /** The PCR read of Generate: PCR 7 of the SHA-256 bank, hex encoded, or the wrapped failure. */
  function PcrPhase(rwc: Option<Handle>, chip: Chip): Result<map<int, string>, Error>
  {
    match Send(rwc, chip.readPCRs(TalosSelection))
    case Err(e) => Err(Wrapped("failed to read PCRs from TPM device", Wrapped("failed to read PCRs", e)))
    case Ok(bank) =>
      if TalosPCRIndex !in bank then Err(Wrapped("failed to read PCRs from TPM device", PCRNotFound(TalosPCRIndex)))
      else Ok(map[TalosPCRIndex := EncodeToString(bank[TalosPCRIndex])])
  }

  function TpmPhase(rwc: Option<Handle>, nonce: Bytes, chip: Chip): Result<TpmEvidence, Error>
  {
    match PcrPhase(rwc, chip)
    case Err(e) => Err(e)
    case Ok(pcrs) =>
      if QuoteCheck(rwc, nonce, Some(TalosSelection)).Some? then
        Err(Wrapped("failed to get quote from TPM device", QuoteCheck(rwc, nonce, Some(TalosSelection)).value))
      else
        match AkPublicPem(rwc, chip)
        case Err(e) => Err(Wrapped("failed to get quote from TPM device", e))
        case Ok(pem) =>
          match SignedQuote(rwc, nonce, TalosSelection, chip)
          case Err(e) => Err(Wrapped("failed to get quote from TPM device", e))
          case Ok(signed) =>
            if signed.1 == [] then Err(Wrapped("failed to get signature from TPM device", NoSignatureCached))
            else Ok(TpmEvidence(pcrs, signed.0, signed.1, pem))
  }

  /**
   * The TPM evidence a session that keeps its device open obtains over the
   * nonce: None when no device node opens or a TPM step fails.
   */
  function HeldTpmEvidence(nonce: Bytes, host: Host): Option<TpmEvidence>
  {
    var p := FirstPresent(host.present);
    if p.None? || p.value in host.openError then None
    else
      var hw := TpmPhase(Some(Handle(p.value, false)), nonce, host.chip);
      if hw.Ok? then Some(hw.value) else None
  }

  /** HeldTpmEvidence in terms of the device node chosen and the TPM steps over it. */
  lemma HeldEvidenceOf(nonce: Bytes, host: Host)
    ensures var p := FirstPresent(host.present);
      && (HeldTpmEvidence(nonce, host).Some? <==>
            p.Some? && p.value !in host.openError && TpmPhase(Some(Handle(p.value, false)), nonce, host.chip).Ok?)
      && (HeldTpmEvidence(nonce, host).Some? ==>
            HeldTpmEvidence(nonce, host).value == TpmPhase(Some(Handle(p.value, false)), nonce, host.chip).value)
  {
  }

  /** The report's TPM fields come from the evidence, and its timestamp from the clock reading. */
  predicate CarriesTpm(r: RestReport, hw: TpmEvidence, now: int) {
    && TalosPCRIndex in hw.pcrs
    && r.pcrs == map[Decimal.Itoa(TalosPCRIndex) := hw.pcrs[TalosPCRIndex]]
    && r.quote == EncodeToString(hw.quote)
    && r.signature == EncodeToString(hw.signature)
    && r.tpmPublicKey == EncodeToString(hw.publicKey)
    && r.timestamp == Utils.UnixNowString(now)
  }

  /** The TPM steps succeed only with PCR 7 alone, and with a non-empty signature and public key. */
  lemma TpmPhaseShape(rwc: Option<Handle>, nonce: Bytes, chip: Chip)
    ensures TpmPhase(rwc, nonce, chip).Ok? ==>
      var ev := TpmPhase(rwc, nonce, chip).value;
      ev.pcrs.Keys == {TalosPCRIndex} && ev.signature != [] && ev.publicKey != []
    ensures TpmPhase(rwc, nonce, chip).Ok? ==> rwc.Some? && !rwc.value.closed && nonce != []
  {
  }

  /**
   * The TPM steps of Generate when the device comes from OpenTPMDevice as
   * written: its handle is already closed, so they can never succeed.
   */
  lemma {:induction false} ClosedDeviceNeverReports(path: string, nonce: Bytes, chip: Chip)
    ensures TpmPhase(Some(Handle(path, true)), nonce, chip)
         == Err(Wrapped("failed to read PCRs from TPM device", Wrapped("failed to read PCRs", FileClosed)))
  {
  }

  /**
   * The PCR map with each index written in decimal. The conversion is
   * lossless: every key parses back to the index whose value it carries.
   */
  method ConvertPCRs(pcrs: map<int, string>) returns (conv: map<string, string>)
    ensures conv.Keys == set k | k in pcrs :: Decimal.Itoa(k)
    ensures forall k :: k in pcrs ==> conv[Decimal.Itoa(k)] == pcrs[k]
    ensures forall s :: s in conv ==>
      Decimal.ParseDecimal(s).Some? && Decimal.ParseDecimal(s).value in pcrs
      && conv[s] == pcrs[Decimal.ParseDecimal(s).value]
  {
    conv := map[];
    var todo := pcrs.Keys;
    while todo != {}
      invariant todo <= pcrs.Keys
      invariant conv.Keys == set k | k in pcrs.Keys - todo :: Decimal.Itoa(k)
      invariant forall k :: k in pcrs.Keys - todo ==> conv[Decimal.Itoa(k)] == pcrs[k]
      decreases |todo|
    {
      ghost var someKey := Pick(todo);
      var k :| k in todo;
      ItoaFresh(pcrs.Keys - todo, k);
      conv := conv[Decimal.Itoa(k) := pcrs[k]];
      todo := todo - {k};
    }
    DecimalKeysParse(pcrs, conv);
  }

  lemma Pick<T>(s: set<T>) returns (x: T)
    requires s != {}
    ensures x in s
  {
    x :| x in s;
  }

  lemma ItoaFresh(done: set<int>, k: int)
    requires k !in done
    ensures Decimal.Itoa(k) !in set j | j in done :: Decimal.Itoa(j)
  {
    if Decimal.Itoa(k) in set j | j in done :: Decimal.Itoa(j) {
      var j :| j in done && Decimal.Itoa(j) == Decimal.Itoa(k);
      Decimal.ItoaInjective(j, k);
    }
  }

  lemma DecimalKeysParse(pcrs: map<int, string>, conv: map<string, string>)
    requires conv.Keys == set k | k in pcrs :: Decimal.Itoa(k)
    requires forall k :: k in pcrs ==> conv[Decimal.Itoa(k)] == pcrs[k]
    ensures forall s :: s in conv ==>
      Decimal.ParseDecimal(s).Some? && Decimal.ParseDecimal(s).value in pcrs
      && conv[s] == pcrs[Decimal.ParseDecimal(s).value]
  {
    forall s | s in conv
      ensures Decimal.ParseDecimal(s).Some? && Decimal.ParseDecimal(s).value in pcrs
      ensures conv[s] == pcrs[Decimal.ParseDecimal(s).value]
    {
      var k :| k in pcrs && s == Decimal.Itoa(k);
      Decimal.ParseItoa(k);
    }
  }

  /**
   * The TPM steps of Generate: select PCR 7 through GetPCRSelection, read
   * it, quote over it, then fetch the cached signature and public key.
   */
  /** The PCR read with the Talos selection, wrapped as Generate wraps it. */
  method ReadTalosPCRs(device: Device, selection: Selection, chip: Chip) returns (r: Result<map<int, string>, Error>)
    requires selection == TalosSelection
    ensures r == PcrPhase(device.rwc, chip)
  {
    var pcrs := device.ReadPCRs(Some(selection), chip);
    assert selection.pcrs == [TalosPCRIndex];
    if pcrs.Err? {
      return Err(Wrapped("failed to read PCRs from TPM device", pcrs.error));
    }
    assert pcrs.value == map[TalosPCRIndex := EncodeToString(Send(device.rwc, chip.readPCRs(TalosSelection)).value[TalosPCRIndex])] by {
      assert Uint32(TalosPCRIndex) == TalosPCRIndex;
      assert selection.pcrs[0] == TalosPCRIndex;
      assert pcrs.value.Keys == {TalosPCRIndex};
    }
    return Ok(pcrs.value);
  }

  method ReadTpmEvidence(device: Device, chip: Chip) returns (r: Result<TpmEvidence, Error>)
    modifies device
    ensures r == TpmPhase(old(device.rwc), old(device.nonce), chip)
  {
    var indices := new int[1];
    indices[0] := TalosPCRIndex;
    var selection := GetPCRSelection(indices);
    assert indices[..] == [TalosPCRIndex] by {
      assert indices[..][0] in multiset(indices[..]);
    }

    var pcrs := ReadTalosPCRs(device, selection, chip);
    if pcrs.Err? {
      return Err(pcrs.error);
    }
    var quote := device.Quote(Some(selection), chip);
    if quote.Err? {
      return Err(Wrapped("failed to get quote from TPM device", quote.error));
    }
    var signature := device.Signature();
    if signature.Err? {
      return Err(Wrapped("failed to get signature from TPM device", signature.error));
    }
    var publicKey := device.GetTPMPublicKey();
    if publicKey.Err? {
      assert false;
    }
    return Ok(TpmEvidence(pcrs.value, quote.value, signature.value, publicKey.value));
  }

  /**
   * The component loop of Generate: Measure then Evidence on each
   * attestable in order, stopping at the first failure with an error that
   * names it; on success one component per attestable, in order.
   */
  method CollectComponents(atts: seq<Attestable>) returns (r: Result<seq<ComponentReport>, Error>, calls: seq<Call>)
    ensures calls == CallTrace(atts)
    ensures r.Ok? <==> FirstFailure(atts) == |atts|
    ensures r.Err? ==> r.error == FailureOf(atts[FirstFailure(atts)])
    ensures r.Ok? ==> |r.value| == |atts| && forall j :: 0 <= j < |atts| ==> r.value[j] == Component(atts[j])
  {
    calls := [];
    var components: seq<ComponentReport> := [];
    var i := 0;
    while i < |atts|
      invariant 0 <= i <= |atts|
      invariant forall j :: 0 <= j < i ==> Succeeds(atts[j])
      invariant |components| == i
      invariant forall j :: 0 <= j < i ==> components[j] == Component(atts[j])
      invariant calls == Rounds(i)
    {
      var attestable := atts[i];
      calls := calls + [Measure(i)];
      var measure := attestable.measure;
      if measure.Err? {
        FirstFailureAt(atts, i);
        return Err(Wrapped("failed to measure " + attestable.name, measure.error)), calls;
      }
      calls := calls + [Evidence(i)];
      var evidence := attestable.evidence;
      if evidence.Err? {
        FirstFailureAt(atts, i);
        return Err(Wrapped("failed to get evidence for " + attestable.name, evidence.error)), calls;
      }
      components := components + [ComponentReport(evidence.value, measure.value, attestable.name)];
      i := i + 1;
    }
    FirstFailureAt(atts, |atts|);
    return Ok(components), calls;
  }

  class AttestableReport {
    var attestables: seq<Attestable>

    /** NewAttestableReport: no attestables. */
    constructor ()
      ensures attestables == []
    {
      attestables := [];
    }

    /**
     * NewAllAttestableReport: the eight probes in their fixed order; each
     * argument stands for the fresh probe of that package.
     */
    constructor All(apparmor: Attestable, extensions: Attestable, image: Attestable, lockdown: Attestable,
                    secureBoot: Attestable, selinux: Attestable, squashfs: Attestable, version: Attestable)
      ensures attestables == [apparmor, extensions, image, lockdown, secureBoot, selinux, squashfs, version]
    {
      attestables := [apparmor, extensions, image, lockdown, secureBoot, selinux, squashfs, version];
    }

    /** AddAttestable: appends at the end and returns the same report. */
    method AddAttestable(a: Attestable) returns (r: AttestableReport)
      modifies this
      ensures r == this
      ensures attestables == old(attestables) + [a]
      ensures |attestables| == |old(attestables)| + 1
      ensures forall j :: 0 <= j < |old(attestables)| ==> attestables[j] == old(attestables)[j]
    {
      attestables := attestables + [a];
      return this;
    }

    /**
     * The part of Generate after the device is opened: the TPM steps over
     * PCR 7, the components in registration order, the PCR keys in decimal,
     * the binary outputs in hex and the timestamp.
     */
    method Assemble(device: Device, chip: Chip, now: int) returns (r: Result<RestReport, Error>, calls: seq<Call>)
      modifies device
      ensures var hw := TpmPhase(old(device.rwc), old(device.nonce), chip);
        && (hw.Err? ==> r == Err(hw.error) && calls == [])
        && (hw.Ok? ==> calls == CallTrace(attestables))
        && (hw.Ok? && FirstFailure(attestables) < |attestables| ==>
              r == Err(FailureOf(attestables[FirstFailure(attestables)])))
        && (hw.Ok? && FirstFailure(attestables) == |attestables| ==> r.Ok?)
        && (r.Ok? ==>
              && hw.Ok? && FirstFailure(attestables) == |attestables|
              && |r.value.components| == |attestables|
              && (forall j :: 0 <= j < |attestables| ==> r.value.components[j] == Component(attestables[j]))
              && r.value.pcrs.Keys == (set k | k in hw.value.pcrs :: Decimal.Itoa(k))
              && (forall k :: k in hw.value.pcrs ==> r.value.pcrs[Decimal.Itoa(k)] == hw.value.pcrs[k])
              && r.value.quote == EncodeToString(hw.value.quote)
              && r.value.signature == EncodeToString(hw.value.signature)
              && r.value.tpmPublicKey == EncodeToString(hw.value.publicKey)
              && r.value.timestamp == Utils.UnixNowString(now))
    {
      var evidence := ReadTpmEvidence(device, chip);
      if evidence.Err? {
        return Err(evidence.error), [];
      }
      var components;
      components, calls := CollectComponents(attestables);
      if components.Err? {
        return Err(components.error), calls;
      }
      var convPCRs := ConvertPCRs(evidence.value.pcrs);
      return Ok(RestReport(
        components.value,
        convPCRs,
        EncodeToString(evidence.value.quote),
        EncodeToString(evidence.value.signature),
        Utils.UnixNowString(now),
        EncodeToString(evidence.value.publicKey))), calls;
    }

    /**
     * Generate, as written: OpenTPMDevice hands back a device whose handle
     * its deferred Close has already closed, so the PCR read fails and no
     * report is ever produced; no attestable is called.
     */
    method Generate(nonce: Bytes, host: Host, now: int) returns (r: Result<RestReport, Error>, calls: seq<Call>)
      ensures r.Err? && calls == []
      ensures FirstPresent(host.present).None? ==>
        r == Err(Wrapped("failed to get TPM device", Wrapped("failed to open TPM device", TPMNotFound)))
      ensures FirstPresent(host.present).Some? && FirstPresent(host.present).value !in host.openError ==>
        r == Err(Wrapped("failed to read PCRs from TPM device", Wrapped("failed to read PCRs", FileClosed)))
    {
      var device := OpenTPMDevice(nonce, host);
      if device.Err? {
        return Err(Wrapped("failed to get TPM device", device.error)), [];
      }
      ClosedDeviceNeverReports(FirstPresent(host.present).value, nonce, host.chip);
      r, calls := Assemble(device.value, host.chip, now);
    }

    /**
     * Generate with the session held open until the report is assembled.
     * Fail-fast: an open or TPM failure returns no report and calls no
     * attestable; otherwise
     * the attestables are called in order up to the first failure, and a
     * report exists exactly when none fails, with one component per
     * attestable in registration order.
     */
    method GenerateHeld(nonce: Bytes, host: Host, now: int) returns (r: Result<RestReport, Error>, calls: seq<Call>)
      ensures var p := FirstPresent(host.present);
        && (p.None? ==> r == Err(Wrapped("failed to get TPM device", Wrapped("failed to open TPM device", TPMNotFound))))
        && (p.Some? && p.value in host.openError ==>
              r == Err(Wrapped("failed to get TPM device", Wrapped("failed to open TPM device",
                         Wrapped("failed to open TPM device at " + p.value, host.openError[p.value])))))
        && (p.None? || p.value in host.openError ==> calls == [])
      ensures var p := FirstPresent(host.present);
        p.Some? && p.value !in host.openError ==>
        var hw := TpmPhase(Some(Handle(p.value, false)), nonce, host.chip);
        && (hw.Err? ==> r == Err(hw.error) && calls == [])
        && (hw.Ok? ==> calls == CallTrace(attestables))
        && (hw.Ok? && FirstFailure(attestables) < |attestables| ==>
              r == Err(FailureOf(attestables[FirstFailure(attestables)])))
        && (r.Ok? <==> hw.Ok? && FirstFailure(attestables) == |attestables|)
        && (r.Ok? ==>
              && |r.value.components| == |attestables|
              && (forall j :: 0 <= j < |attestables| ==> r.value.components[j] == Component(attestables[j]))
              && r.value.pcrs == map[Decimal.Itoa(TalosPCRIndex) := hw.value.pcrs[TalosPCRIndex]]
              && r.value.quote == EncodeToString(hw.value.quote)
              && r.value.signature == EncodeToString(hw.value.signature)
              && r.value.tpmPublicKey == EncodeToString(hw.value.publicKey)
              && r.value.timestamp == Utils.UnixNowString(now))
    {
      var device := OpenHeldTPMDevice(nonce, host);
      if device.Err? {
        return Err(Wrapped("failed to get TPM device", device.error)), [];
      }
      ghost var hw := TpmPhase(device.value.rwc, nonce, host.chip);
      TpmPhaseShape(device.value.rwc, nonce, host.chip);
      r, calls := Assemble(device.value, host.chip, now);
      if r.Ok? {
        SinglePCRMap(r.value.pcrs, hw.value.pcrs);
      }
      var _ := device.value.Close();
    }
  }

  /** The converted PCR map of a read of the Talos PCR alone has one entry, under "7". */
  lemma SinglePCRMap(conv: map<string, string>, pcrs: map<int, string>)
    requires pcrs.Keys == {TalosPCRIndex}
    requires conv.Keys == (set k | k in pcrs :: Decimal.Itoa(k))
    requires forall k :: k in pcrs ==> conv[Decimal.Itoa(k)] == pcrs[k]
    ensures conv == map[Decimal.Itoa(TalosPCRIndex) := pcrs[TalosPCRIndex]]
  {
    assert TalosPCRIndex in pcrs;
    assert conv.Keys == {Decimal.Itoa(TalosPCRIndex)};
  }

  lemma {:induction false} FirstFailureAt(atts: seq<Attestable>, i: nat)
    requires i <= |atts|
    requires forall j :: 0 <= j < i ==> Succeeds(atts[j])
    requires i < |atts| ==> !Succeeds(atts[i])
    ensures FirstFailure(atts) == i
  {
    if i > 0 {
      FirstFailureAt(atts[1..], i - 1);
    }
  }
}
