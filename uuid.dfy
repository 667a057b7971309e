/**
 * The machine UUID lookup (pkg/uuid/uuid.go). File reads are a function
 * from path to contents or failure; the UUID parser is an oracle that
 * yields the 16 bytes of a UUID or a failure, and the canonical text of
 * those bytes is the form of section 3 of RFC 4122.
 */
module Uuid {
  import opened Wrappers
  import opened Errors
  import opened Hex
  import opened Text
  import opened Utils

  type UUIDBytes = s: seq<byte> | |s| == 16 witness seq(16, _ => 0)
  type Parser = string -> Result<UUIDBytes, Error>

  const Candidates := ["/sys/class/dmi/id/product_uuid", "/sys/devices/virtual/dmi/id/product_uuid"]

  predicate IsDashPosition(i: int) {
    i == 8 || i == 13 || i == 18 || i == 23
  }

  /**
   * UUID.String: 32 lower-case hex digits in groups of 8, 4, 4, 4 and 12
   * separated by dashes.
   */
  function UUIDString(u: UUIDBytes): (s: string)
    ensures |s| == 36
    ensures forall i :: 0 <= i < |s| ==> (s[i] == '-' <==> IsDashPosition(i))
    ensures forall i :: 0 <= i < |s| && !IsDashPosition(i) ==> IsLowerHexChar(s[i])
  {
    var s := EncodeToString(u[..4]) + "-" + EncodeToString(u[4..6]) + "-" + EncodeToString(u[6..8]) + "-"
      + EncodeToString(u[8..10]) + "-" + EncodeToString(u[10..]);
    assert forall i :: 0 <= i < |s| && !IsDashPosition(i) ==> IsLowerHexChar(s[i]);
    s
  }

  /** The hex groups of the canonical text, at the places the dashes leave for them. */
  lemma UUIDStringGroups(u: UUIDBytes)
    ensures var s := UUIDString(u);
      && s[0..8] == EncodeToString(u[..4])
      && s[9..13] == EncodeToString(u[4..6])
      && s[14..18] == EncodeToString(u[6..8])
      && s[19..23] == EncodeToString(u[8..10])
      && s[24..] == EncodeToString(u[10..])
  {
    var g0, g1, g2 := EncodeToString(u[..4]), EncodeToString(u[4..6]), EncodeToString(u[6..8]);
    var g3, g4 := EncodeToString(u[8..10]), EncodeToString(u[10..]);
    var s := UUIDString(u);
    assert s == g0 + "-" + g1 + "-" + g2 + "-" + g3 + "-" + g4;
    GroupAt(g0 + "-", g1, "-" + g2 + "-" + g3 + "-" + g4);
    GroupAt(g0 + "-" + g1 + "-", g2, "-" + g3 + "-" + g4);
    GroupAt(g0 + "-" + g1 + "-" + g2 + "-", g3, "-" + g4);
  }

  lemma GroupAt(before: string, g: string, after: string)
    ensures (before + g + after)[|before|..|before| + |g|] == g
  {
  }

  /** The canonical text determines the UUID: distinct UUIDs print differently. */
  lemma UUIDStringInjective(a: UUIDBytes, b: UUIDBytes)
    requires UUIDString(a) == UUIDString(b)
    ensures a == b
  {
    UUIDStringGroups(a);
    UUIDStringGroups(b);
    EncodeInjective(a[..4], b[..4]);
    EncodeInjective(a[4..6], b[4..6]);
    EncodeInjective(a[6..8], b[6..8]);
    EncodeInjective(a[8..10], b[8..10]);
    EncodeInjective(a[10..], b[10..]);
    assert a == a[..4] + a[4..6] + a[6..8] + a[8..10] + a[10..];
    assert b == b[..4] + b[4..6] + b[6..8] + b[8..10] + b[10..];
  }

  /** A candidate is taken when it reads without error and is not empty. */
  predicate Usable(read: ReadFile, path: string) {
    read(path).Ok? && |read(path).value| > 0
  }

  /** The first usable candidate, or |paths| when there is none. */
  function Taken(paths: seq<string>, read: ReadFile): (k: nat)
    ensures k <= |paths|
    ensures forall j :: 0 <= j < k ==> !Usable(read, paths[j])
    ensures k < |paths| ==> Usable(read, paths[k])
  {
    if paths == [] || Usable(read, paths[0]) then 0 else 1 + Taken(paths[1..], read)
  }

  /** The trimmed contents of the candidate taken, "" when none is. */
  function Raw(read: ReadFile): string
  {
    var k := Taken(Candidates, read);
    if k < |Candidates| then TrimSpace(read(Candidates[k]).value) else ""
  }

  /** The raw value as the error message quotes it. */
  function Quoted(raw: string): string
  {
    "\"" + raw + "\""
  }

  /**
   * GetMachineUUID: the candidates in order, the first usable one taken
   * and trimmed; an empty value is UUIDNotFound, otherwise the lower-cased
   * value goes to the parser and a parsed UUID comes back in canonical form.
   */
  method GetMachineUUID(read: ReadFile, parse: Parser) returns (r: Result<string, Error>)
    ensures Raw(read) == "" ==> r == Err(UUIDNotFound)
    ensures Raw(read) != "" && parse(ToLower(Raw(read))).Err? ==>
      r == Err(Wrapped("invalid UUID in SMBIOS (" + Quoted(Raw(read)) + ")", parse(ToLower(Raw(read))).error))
    ensures Raw(read) != "" && parse(ToLower(Raw(read))).Ok? ==>
      r == Ok(UUIDString(parse(ToLower(Raw(read))).value))
  {
    var raw := "";
    var i := 0;
    while i < |Candidates|
      invariant 0 <= i <= |Candidates|
      invariant forall j :: 0 <= j < i ==> !Usable(read, Candidates[j])
      invariant raw == ""
    {
      var b := read(Candidates[i]);
      if b.Ok? && |b.value| > 0 {
        raw := TrimSpace(b.value);
        TakenAt(Candidates, read, i);
        break;
      }
      i := i + 1;
    }
    if i == |Candidates| {
      TakenAt(Candidates, read, i);
    }
    if raw == "" {
      return Err(UUIDNotFound);
    }
    var u := parse(ToLower(raw));
    if u.Err? {
      return Err(Wrapped("invalid UUID in SMBIOS (" + Quoted(raw) + ")", u.error));
    }
    return Ok(UUIDString(u.value));
  }

  lemma {:induction false} TakenAt(paths: seq<string>, read: ReadFile, i: nat)
    requires i <= |paths|
    requires forall j :: 0 <= j < i ==> !Usable(read, paths[j])
    requires i < |paths| ==> Usable(read, paths[i])
    ensures Taken(paths, read) == i
  {
    if i > 0 {
      TakenAt(paths[1..], read, i - 1);
    }
  }

  /**
   * A first candidate that reads as nothing but white space still ends the
   * search: the second candidate is never used and the answer is UUIDNotFound.
   */
  lemma BlankFirstCandidateHidesSecond(read: ReadFile)
    requires Usable(read, Candidates[0])
    requires forall i :: 0 <= i < |read(Candidates[0]).value| ==> IsSpace(read(Candidates[0]).value[i])
    ensures Raw(read) == ""
  {
    TakenAt(Candidates, read, 0);
  }
}
