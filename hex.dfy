/**
 * Base16 with the lower-case alphabet (RFC 4648, section 8), as Go's
 * `encoding/hex` writes it: two characters per byte, high nibble first.
 */
module Hex {
  import opened Wrappers

  type byte = x: int | 0 <= x < 256

  /** The digit for a nibble, from the alphabet "0123456789abcdef". */
  function Digit(n: int): (c: char)
    requires 0 <= n < 16
    ensures IsLowerHexChar(c) && DigitValue(c) == Some(n)
  {
    if n < 10 then ('0' as int + n) as char else ('a' as int + n - 10) as char
  }

  predicate IsLowerHexChar(c: char) {
    '0' <= c <= '9' || 'a' <= c <= 'f'
  }

  predicate IsLowerHex(s: string) {
    forall i :: 0 <= i < |s| ==> IsLowerHexChar(s[i])
  }

  /** The value of one hex digit; like Go's decoder, both letter cases are accepted. */
  function DigitValue(c: char): (v: Option<int>)
    ensures v.Some? ==> 0 <= v.value < 16
    ensures IsLowerHexChar(c) ==> v.Some?
  {
    if '0' <= c <= '9' then Some(c as int - '0' as int)
    else if 'a' <= c <= 'f' then Some(c as int - 'a' as int + 10)
    else if 'A' <= c <= 'F' then Some(c as int - 'A' as int + 10)
    else None
  }

  lemma DigitOfValue(c: char)
    requires IsLowerHexChar(c)
    ensures Digit(DigitValue(c).value) == c
  {
  }

  /** hex.EncodeToString */
  function EncodeToString(bs: seq<byte>): (s: string)
    ensures |s| == 2 * |bs|
    ensures IsLowerHex(s)
  {
    if bs == [] then ""
    else [Digit(bs[0] / 16), Digit(bs[0] % 16)] + EncodeToString(bs[1..])
  }

  /** hex.DecodeString: None for an odd length or a byte that is not a hex digit. */
  function DecodeString(s: string): (r: Option<seq<byte>>)
    ensures r.Some? ==> 2 * |r.value| == |s|
  {
    if |s| == 0 then Some([])
    else if |s| == 1 then None
    else
      match (DigitValue(s[0]), DigitValue(s[1]), DecodeString(s[2..]))
      case (Some(hi), Some(lo), Some(rest)) => Some([hi * 16 + lo] + rest)
      case _ => None
  }

  /** Decoding an encoding gives back the original bytes. */
  lemma {:induction false} DecodeEncode(bs: seq<byte>)
    ensures DecodeString(EncodeToString(bs)) == Some(bs)
  {
    if bs != [] {
      var s := EncodeToString(bs);
      var hi, lo := bs[0] / 16, bs[0] % 16;
      assert hi * 16 + lo == bs[0];
      DecodeEncode(bs[1..]);
      assert s[2..] == EncodeToString(bs[1..]);
      assert DigitValue(s[0]) == Some(hi);
      assert DigitValue(s[1]) == Some(lo);
      assert DecodeString(s) == Some([bs[0]] + bs[1..]);
      assert [bs[0]] + bs[1..] == bs;
    }
  }

  /** Every even-length lower-case hex string is the encoding of what it decodes to. */
  lemma {:induction false} EncodeDecode(s: string)
    requires |s| % 2 == 0 && IsLowerHex(s)
    ensures DecodeString(s).Some? && EncodeToString(DecodeString(s).value) == s
  {
    if |s| > 0 {
      EncodeDecode(s[2..]);
      var hi, lo := DigitValue(s[0]).value, DigitValue(s[1]).value;
      DigitOfValue(s[0]);
      DigitOfValue(s[1]);
      var b: byte := hi * 16 + lo;
      assert b / 16 == hi && b % 16 == lo;
      var bs := DecodeString(s).value;
      assert bs == [b] + DecodeString(s[2..]).value;
      assert bs[1..] == DecodeString(s[2..]).value;
      assert s == [s[0], s[1]] + s[2..];
    }
  }

  /** The encoding is lossless: distinct byte strings have distinct encodings. */
  lemma EncodeInjective(a: seq<byte>, b: seq<byte>)
    requires EncodeToString(a) == EncodeToString(b)
    ensures a == b
  {
    DecodeEncode(a);
    DecodeEncode(b);
  }
}
