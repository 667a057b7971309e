/**
 * Measurement encoding (pkg/utils/utils.go). SHA-512 (FIPS 180-4) and
 * SHA-256 are left uninterpreted: fixed functions whose only known
 * property is the length of their digest.
 */
module Utils {
  import opened Wrappers
  import opened Errors
  import opened Hex
  import Decimal

  /** os.ReadFile: the contents of the file at a path, or the failure to read it. */
  type ReadFile = string -> Result<string, Error>

  type Digest64 = s: seq<byte> | |s| == 64 witness seq(64, _ => 0)
  type Digest32 = s: seq<byte> | |s| == 32 witness seq(32, _ => 0)

  /** sha512.Sum512, over the bytes of a Go string. */
  const Sha512: string -> Digest64

  /** sha256.Sum256, over the bytes of a Go string. */
  const Sha256: string -> Digest32

  /** EncodeMeasurement: the hex of the SHA-512 digest of the data. */
  function EncodeMeasurement(data: string): (m: string)
    ensures |m| == 128 && IsLowerHex(m)
    ensures DecodeString(m) == Some(Sha512(data))
  {
    DecodeEncode(Sha512(data));
    EncodeToString(Sha512(data))
  }

  const Enabled := "enabled"
  const Disabled := "disabled"

  /** BoolToMeasurement: the measurement of the word "enabled" or "disabled". */
  function BoolToMeasurement(b: bool): (m: string)
    ensures m == EncodeMeasurement(if b then Enabled else Disabled)
  {
    var status := if b then Enabled else Disabled;
    EncodeMeasurement(status)
  }

  /**
   * The two words hashed for a boolean differ, so the two measurements
   * differ whenever SHA-512 separates those two inputs.
   */
  lemma BoolMeasurementsDiffer()
    ensures Enabled != Disabled
    ensures Sha512(Enabled) != Sha512(Disabled) ==> BoolToMeasurement(true) != BoolToMeasurement(false)
  {
    assert Enabled[0] != Disabled[0];
    if BoolToMeasurement(true) == BoolToMeasurement(false) {
      EncodeInjective(Sha512(Enabled), Sha512(Disabled));
    }
  }

  /** A measurement is determined by its data and determines its digest. */
  lemma MeasurementDeterminesDigest(a: string, b: string)
    ensures a == b ==> EncodeMeasurement(a) == EncodeMeasurement(b)
    ensures EncodeMeasurement(a) == EncodeMeasurement(b) <==> Sha512(a) == Sha512(b)
  {
    if EncodeMeasurement(a) == EncodeMeasurement(b) {
      EncodeInjective(Sha512(a), Sha512(b));
    }
  }

  /** UnixNowString: the clock reading (seconds since the epoch) in decimal. */
  function UnixNowString(now: int): (s: string)
    ensures Decimal.ParseDecimal(s) == Some(now)
  {
    Decimal.ParseItoa(now);
    Decimal.Itoa(now)
  }

  /** strconv.FormatBool */
  function FormatBool(b: bool): (s: string)
    ensures s == "true" <==> b
    ensures s == "false" <==> !b
  {
    if b then "true" else "false"
  }
}
