/**
 * The TPM device wrapper of pkg/tpm/tpm.go: opening one of two device
 * nodes, reading PCRs (TPM2_PCR_Read, TPM 2.0 Library Specification Part 3,
 * section 22.4), quoting (TPM2_Quote, Part 3, section 18.4) and caching the
 * quote's signature and the attestation key's PEM-encoded public key.
 *
 * The go-tpm, x509 and PEM calls are not modelled; what they answer is a
 * `Chip` value passed to the operations that call them.
 */
module Tpm {
  import opened Wrappers
  import opened Errors
  import opened Hex

  type Bytes = seq<byte>
  type NonEmptyBytes = s: seq<byte> | |s| > 0 witness [0]

  const TpmDevicePath := "/dev/tpm0"
  const TpmResourceManagerDevicePath := "/dev/tpmrm0"

  /** The device nodes openTPM tries, in order. */
  const DevicePaths := [TpmResourceManagerDevicePath, TpmDevicePath]

  /** TPM_ALG_ID values (TPM 2.0 Library Specification Part 2, section 6.3). */
  type AlgId = x: int | 0 <= x < 0x1_0000
  const AlgSHA256: AlgId := 0x000B
  const AlgECC: AlgId := 0x0023

  /** tpm2.PCRSelection: a hash bank and a list of PCR indices. */
  datatype Selection = Selection(hash: AlgId, pcrs: seq<int>)

  /** What tpm2.Quote answers: the attestation structure and the encoding of its signature. */
  datatype QuoteAnswer = QuoteAnswer(attest: Bytes, encodedSignature: Result<Bytes, Error>)

  /** The answers of the TPM behind an open handle, and of the libraries Quote uses. */
  datatype Chip = Chip(
    // client.ReadPCRs: the bank's values, keyed by uint32 PCR index
    readPCRs: Selection -> Result<map<int, Bytes>, Error>,
    // client.AttestationKeyECC: the public area of a new ECC attestation key
    attestationKey: Result<Bytes, Error>,
    // x509.MarshalPKIXPublicKey of that key
    marshalPKIX: Bytes -> Result<Bytes, Error>,
    // tpm2.Quote(nonce, selection, AlgECC) signed with that key
    quote: (Bytes, Selection) -> Result<QuoteAnswer, Error>
  )

  /** pem.EncodeToMemory of a "PUBLIC KEY" block; its armour lines make it non-empty. */
  const PemEncode: Bytes -> NonEmptyBytes

  /** An io.ReadWriteCloser on a device node; `closed` once Close has been called on it. */
  datatype Handle = Handle(path: string, closed: bool)

  /** The machine: which device nodes exist, which fail to open and with what, and the TPM. */
  datatype Host = Host(present: set<string>, openError: map<string, Error>, chip: Chip)

  /**
   * A command sent over the device handle: a nil handle makes go-tpm
   * dereference nil, a closed file refuses every read and write, and an
   * open handle carries the device's answer.
   */
  function Send<T>(rwc: Option<Handle>, answer: Result<T, Error>): (r: Result<T, Error>)
    ensures rwc.None? ==> r.Err? && r.error.Panic?
    ensures rwc.Some? && rwc.value.closed ==> r == Err(FileClosed)
    ensures rwc.Some? && !rwc.value.closed ==> r == answer
  {
    match rwc
    case None => Err(Panic("nil TPM handle"))
    case Some(h) => if h.closed then Err(FileClosed) else answer
  }

  /** Go's uint32(pcrIndex): the low 32 bits of the index. */
  function Uint32(i: int): (u: int)
    ensures 0 <= u < 0x1_0000_0000
    ensures 0 <= i < 0x1_0000_0000 ==> u == i
  {
    i % 0x1_0000_0000
  }

  predicate ValidSelection(sel: Option<Selection>) {
    sel.Some? && |sel.value.pcrs| > 0
  }

  /** The first device node of the list that exists. */
  function FirstPresent(present: set<string>): (p: Option<string>)
    ensures p.None? <==> (forall k :: 0 <= k < |DevicePaths| ==> DevicePaths[k] !in present)
    ensures p.Some? ==> p.value in present
    ensures p.Some? ==> p.value == TpmResourceManagerDevicePath || TpmResourceManagerDevicePath !in present
    ensures p.Some? ==> p.value == TpmResourceManagerDevicePath || p.value == TpmDevicePath
  {
    assert DevicePaths[0] == TpmResourceManagerDevicePath && DevicePaths[1] == TpmDevicePath;
    if TpmResourceManagerDevicePath in present then Some(TpmResourceManagerDevicePath)
    else if TpmDevicePath in present then Some(TpmDevicePath)
    else None
  }

  /** The precondition Quote finds violated first, in its order of checking. */
  function QuoteCheck(rwc: Option<Handle>, nonce: Bytes, sel: Option<Selection>): (e: Option<Error>)
    ensures e == Some(TPMNotOpened) <==> rwc.None?
    ensures e == Some(InvalidNonce) <==> rwc.Some? && nonce == []
    ensures e == Some(InvalidPCRs) <==> rwc.Some? && nonce != [] && !ValidSelection(sel)
    ensures e.None? <==> rwc.Some? && nonce != [] && ValidSelection(sel)
  {
    if rwc.None? then Some(TPMNotOpened)
    else if |nonce| == 0 then Some(InvalidNonce)
    else if !ValidSelection(sel) then Some(InvalidPCRs)
    else None
  }

  /** Creating the attestation key and exporting its public key as PEM. */
  function AkPublicPem(rwc: Option<Handle>, chip: Chip): (r: Result<Bytes, Error>)
    ensures r.Ok? ==> |r.value| > 0
  {
    match Send(rwc, chip.attestationKey)
    case Err(e) => Err(Wrapped("creating AK", e))
    case Ok(key) =>
      match chip.marshalPKIX(key)
      case Err(e) => Err(Wrapped("marshal public key", e))
      case Ok(pkix) => Ok(PemEncode(pkix))
  }

  /** The hardware quote and the encoding of its signature. */
  function SignedQuote(rwc: Option<Handle>, nonce: Bytes, sel: Selection, chip: Chip): Result<(Bytes, Bytes), Error>
  {
    match Send(rwc, chip.quote(nonce, sel))
    case Err(e) => Err(Wrapped("tpm2.Quote failed", e))
    case Ok(answer) =>
      match answer.encodedSignature
      case Err(e) => Err(Wrapped("marshal signature", e))
      case Ok(sig) => Ok((answer.attest, sig))
  }

  predicate Sorted(s: seq<int>) {
    forall x, y :: 0 <= x < y < |s| ==> s[x] <= s[y]
  }

  class Device {
    var rwc: Option<Handle>
    var nonce: Bytes
    var lastSig: Bytes   // cached signature of the most recent quote
    var akPubPEM: Bytes  // cached AK public key (PEM) of the most recent quote

    /** Device{nonce: nonce}: not opened, nothing cached. */
    constructor (nonce: Bytes)
      ensures rwc.None? && this.nonce == nonce && lastSig == [] && akPubPEM == []
    {
      rwc := None;
      this.nonce := nonce;
      lastSig := [];
      akPubPEM := [];
    }

    /** openTPM: open the first device node that exists; no fallback when opening it fails. */
    method OpenTPM(host: Host) returns (err: Option<Error>)
      modifies this`rwc
      ensures FirstPresent(host.present).None? ==> err == Some(TPMNotFound) && rwc == old(rwc)
      ensures FirstPresent(host.present).Some? ==>
        var p := FirstPresent(host.present).value;
        if p in host.openError then
          err == Some(Wrapped("failed to open TPM device at " + p, host.openError[p])) && rwc == old(rwc)
        else
          err == None && rwc == Some(Handle(p, false))
    {
      var k := 0;
      while k < |DevicePaths|
        invariant 0 <= k <= |DevicePaths|
        invariant forall m :: 0 <= m < k ==> DevicePaths[m] !in host.present
        invariant rwc == old(rwc)
      {
        var p := DevicePaths[k];
        if p in host.present {
          assert k == 1 ==> DevicePaths[0] !in host.present;
          assert FirstPresent(host.present) == Some(p);
          if p in host.openError {
            return Some(Wrapped("failed to open TPM device at " + p, host.openError[p]));
          }
          rwc := Some(Handle(p, false));
          return None;
        }
        k := k + 1;
      }
      return Some(TPMNotFound);
    }

    /**
     * ReadPCRs: all or nothing. Either every selected index is in the
     * device's answer and the result maps exactly the selected indices to
     * the hex of their values, or the read fails naming the first index
     * the answer lacks.
     */
    method ReadPCRs(sel: Option<Selection>, chip: Chip) returns (r: Result<map<int, string>, Error>)
      ensures !ValidSelection(sel) ==> r == Err(InvalidPCRs)
      ensures ValidSelection(sel) && Send(rwc, chip.readPCRs(sel.value)).Err? ==>
        r == Err(Wrapped("failed to read PCRs", Send(rwc, chip.readPCRs(sel.value)).error))
      ensures ValidSelection(sel) && Send(rwc, chip.readPCRs(sel.value)).Ok? ==>
        var pcrs, bank := sel.value.pcrs, Send(rwc, chip.readPCRs(sel.value)).value;
        && (r.Ok? <==> forall k :: 0 <= k < |pcrs| ==> Uint32(pcrs[k]) in bank)
        && (r.Ok? ==> r.value.Keys == set k | 0 <= k < |pcrs| :: pcrs[k])
        && (r.Ok? ==> forall i :: i in r.value ==> r.value[i] == EncodeToString(bank[Uint32(i)]))
        && (r.Err? ==> exists j :: 0 <= j < |pcrs| && r.error == PCRNotFound(pcrs[j])
                          && Uint32(pcrs[j]) !in bank
                          && forall k :: 0 <= k < j ==> Uint32(pcrs[k]) in bank)
    {
      if sel.None? || |sel.value.pcrs| == 0 {
        return Err(InvalidPCRs);
      }
      var answer := Send(rwc, chip.readPCRs(sel.value));
      if answer.Err? {
        return Err(Wrapped("failed to read PCRs", answer.error));
      }
      var pcrs, bank := sel.value.pcrs, answer.value;
      var mapPCRs: map<int, string> := map[];
      var k := 0;
      while k < |pcrs|
        invariant 0 <= k <= |pcrs|
        invariant forall m :: 0 <= m < k ==> Uint32(pcrs[m]) in bank
        invariant mapPCRs.Keys == set m | 0 <= m < k :: pcrs[m]
        invariant forall i :: i in mapPCRs ==> Uint32(i) in bank && mapPCRs[i] == EncodeToString(bank[Uint32(i)])
      {
        var index := pcrs[k];
        if Uint32(index) !in bank {
          return Err(PCRNotFound(index));
        }
        mapPCRs := mapPCRs[index := EncodeToString(bank[Uint32(index)])];
        assert (set m | 0 <= m < k + 1 :: pcrs[m]) == (set m | 0 <= m < k :: pcrs[m]) + {index};
        k := k + 1;
      }
      return Ok(mapPCRs);
    }

    /**
     * Quote: the preconditions in order (handle, nonce, selection); then
     * the attestation key's PEM is cached, and only when the hardware quote
     * and the signature encoding also succeed is the signature cached.
     */
    method Quote(sel: Option<Selection>, chip: Chip) returns (r: Result<Bytes, Error>)
      modifies this`akPubPEM, this`lastSig
      ensures QuoteCheck(rwc, nonce, sel).Some? ==>
        r == Err(QuoteCheck(rwc, nonce, sel).value) && akPubPEM == old(akPubPEM) && lastSig == old(lastSig)
      ensures QuoteCheck(rwc, nonce, sel).None? && AkPublicPem(rwc, chip).Err? ==>
        r == Err(AkPublicPem(rwc, chip).error) && akPubPEM == old(akPubPEM) && lastSig == old(lastSig)
      ensures QuoteCheck(rwc, nonce, sel).None? && AkPublicPem(rwc, chip).Ok? ==>
        akPubPEM == AkPublicPem(rwc, chip).value &&
        match SignedQuote(rwc, nonce, sel.value, chip)
        case Err(e) => r == Err(e) && lastSig == old(lastSig)
        case Ok(signed) => r == Ok(signed.0) && lastSig == signed.1
      ensures r.Ok? ==> GetTPMPublicKey() == Ok(akPubPEM)
    {
      if rwc.None? {
        return Err(TPMNotOpened);
      }
      if |nonce| == 0 {
        return Err(InvalidNonce);
      }
      if sel.None? || |sel.value.pcrs| == 0 {
        return Err(InvalidPCRs);
      }
      var key := Send(rwc, chip.attestationKey);
      if key.Err? {
        return Err(Wrapped("creating AK", key.error));
      }
      var pkix := chip.marshalPKIX(key.value);
      if pkix.Err? {
        return Err(Wrapped("marshal public key", pkix.error));
      }
      akPubPEM := PemEncode(pkix.value);
      var answer := Send(rwc, chip.quote(nonce, sel.value));
      if answer.Err? {
        return Err(Wrapped("tpm2.Quote failed", answer.error));
      }
      var sigBytes := answer.value.encodedSignature;
      if sigBytes.Err? {
        return Err(Wrapped("marshal signature", sigBytes.error));
      }
      lastSig := sigBytes.value;
      return Ok(answer.value.attest);
    }

    /** Signature: the cached signature, or NoSignatureCached while there is none. */
    function Signature(): (r: Result<Bytes, Error>)
      reads this
      ensures r.Err? <==> lastSig == []
      ensures r.Err? ==> r.error == NoSignatureCached
      ensures r.Ok? ==> r.value == lastSig
    {
      if |lastSig| == 0 then Err(NoSignatureCached) else Ok(lastSig)
    }

    /** GetTPMPublicKey: the cached PEM public key, or NoPublicKeyCached while there is none. */
    function GetTPMPublicKey(): (r: Result<Bytes, Error>)
      reads this
      ensures r.Err? <==> akPubPEM == []
      ensures r.Err? ==> r.error == NoPublicKeyCached
      ensures r.Ok? ==> r.value == akPubPEM
    {
      if |akPubPEM| == 0 then Err(NoPublicKeyCached) else Ok(akPubPEM)
    }

    /** Close: closes the handle if there is one; never reports an error. */
    method Close() returns (err: Option<Error>)
      modifies this`rwc
      ensures rwc == if old(rwc).Some? then Some(old(rwc).value.(closed := true)) else None
      ensures err == None
    {
      if rwc.Some? {
        rwc := Some(rwc.value.(closed := true));
      }
      return None;
    }
  }

  /**
   * OpenTPMDevice, as written: the deferred Close runs before the device
   * is handed back, so a device it returns has a closed handle.
   */
  method OpenTPMDevice(nonce: Bytes, host: Host) returns (r: Result<Device, Error>)
    ensures FirstPresent(host.present).None? ==> r == Err(Wrapped("failed to open TPM device", TPMNotFound))
    ensures r.Ok? ==> fresh(r.value) && r.value.nonce == nonce && r.value.lastSig == [] && r.value.akPubPEM == []
    ensures r.Ok? <==> FirstPresent(host.present).Some? && FirstPresent(host.present).value !in host.openError
    ensures r.Ok? ==> r.value.rwc == Some(Handle(FirstPresent(host.present).value, true))
    ensures FirstPresent(host.present).Some? && FirstPresent(host.present).value in host.openError ==>
      var p := FirstPresent(host.present).value;
      r == Err(Wrapped("failed to open TPM device", Wrapped("failed to open TPM device at " + p, host.openError[p])))
  {
    var device := new Device(nonce);
    var err := device.OpenTPM(host);
    if err.Some? {
      return Err(Wrapped("failed to open TPM device", err.value));
    }
    var _ := device.Close();
    return Ok(device);
  }

  /**
   * OpenTPMDevice without the deferred Close: the handle stays open and the
   * caller closes it when it is done with the device.
   */
  method OpenHeldTPMDevice(nonce: Bytes, host: Host) returns (r: Result<Device, Error>)
    ensures FirstPresent(host.present).None? ==> r == Err(Wrapped("failed to open TPM device", TPMNotFound))
    ensures r.Ok? ==> fresh(r.value) && r.value.nonce == nonce && r.value.lastSig == [] && r.value.akPubPEM == []
    ensures r.Ok? <==> FirstPresent(host.present).Some? && FirstPresent(host.present).value !in host.openError
    ensures r.Ok? ==> r.value.rwc == Some(Handle(FirstPresent(host.present).value, false))
    ensures FirstPresent(host.present).Some? && FirstPresent(host.present).value in host.openError ==>
      var p := FirstPresent(host.present).value;
      r == Err(Wrapped("failed to open TPM device", Wrapped("failed to open TPM device at " + p, host.openError[p])))
  {
    var device := new Device(nonce);
    var err := device.OpenTPM(host);
    if err.Some? {
      return Err(Wrapped("failed to open TPM device", err.value));
    }
    return Ok(device);
  }

  /**
   * GetPCRSelection: sorts the caller's indices in place (ascending,
   * duplicates kept) and selects them in the SHA-256 bank.
   */
  method GetPCRSelection(pcrIndices: array<int>) returns (sel: Selection)
    modifies pcrIndices
    ensures Sorted(pcrIndices[..])
    ensures multiset(pcrIndices[..]) == multiset(old(pcrIndices[..]))
    ensures sel == Selection(AlgSHA256, pcrIndices[..])
  {
    var a := pcrIndices;
    var i := 1;
    while i < a.Length
      invariant 1 <= i || a.Length == 0
      invariant i <= a.Length || a.Length == 0
      invariant forall x, y :: 0 <= x < y < i && y < a.Length ==> a[x] <= a[y]
      invariant multiset(a[..]) == multiset(old(a[..]))
    {
      var j := i;
      while j > 0 && a[j - 1] > a[j]
        invariant 0 <= j <= i < a.Length
        invariant forall x, y :: 0 <= x < y <= i && x != j && y != j ==> a[x] <= a[y]
        invariant forall y :: j < y <= i ==> a[j] < a[y]
        invariant multiset(a[..]) == multiset(old(a[..]))
      {
        a[j - 1], a[j] := a[j], a[j - 1];
        j := j - 1;
      }
      i := i + 1;
    }
    return Selection(AlgSHA256, a[..]);
  }

  lemma HeadIsLeast(s: seq<int>, x: int)
    requires Sorted(s) && x in multiset(s)
    ensures s != [] && s[0] <= x
  {
    var k :| 0 <= k < |s| && s[k] == x;
  }

  lemma MultisetTail(s: seq<int>, t: seq<int>)
    requires s != [] && t != [] && s[0] == t[0] && multiset(s) == multiset(t)
    ensures multiset(s[1..]) == multiset(t[1..])
  {
    assert s == [s[0]] + s[1..];
    assert t == [t[0]] + t[1..];
    assert multiset(s) == multiset{s[0]} + multiset(s[1..]);
    assert multiset(t) == multiset{s[0]} + multiset(t[1..]);
    assert multiset(s[1..]) == multiset(s) - multiset{s[0]};
    assert multiset(t[1..]) == multiset(t) - multiset{s[0]};
  }

  /** Sorting determines the order completely: the selection depends only on the multiset of indices. */
  lemma {:induction false} SortedPermutationUnique(s: seq<int>, t: seq<int>)
    requires Sorted(s) && Sorted(t) && multiset(s) == multiset(t)
    ensures s == t
  {
    if s == [] {
      assert |t| == |multiset(t)| == 0;
    } else {
      assert s[0] in multiset(t);
      HeadIsLeast(t, s[0]);
      assert t[0] in multiset(s);
      HeadIsLeast(s, t[0]);
      MultisetTail(s, t);
      assert Sorted(s[1..]) && Sorted(t[1..]);
      SortedPermutationUnique(s[1..], t[1..]);
      assert s == [s[0]] + s[1..] && t == [t[0]] + t[1..];
    }
  }
}
