/**
 * The kernel lockdown probe (pkg/lockdown/lockdown.go). The kernel lists
 * the lockdown modes with the active one in brackets, as in
 * "none [integrity] confidentiality"; the probe keeps the first
 * bracketed word, brackets included, in lower case.
 */
module Lockdown {
  import opened Wrappers
  import opened Errors
  import opened Hex
  import opened Text
  import opened Utils

  const LockdownModePath := "/sys/kernel/security/lockdown"
  const Name := "lockdown"

  /** The characters \w matches in Go's regexp syntax: ASCII letters, digits and underscore. */
  predicate IsWordChar(c: char) {
    ('0' <= c <= '9') || ('a' <= c <= 'z') || ('A' <= c <= 'Z') || c == '_'
  }

  /** The length of the run of word characters that starts at position i. */
  function WordRun(s: string, i: nat): (n: nat)
    requires i <= |s|
    ensures i + n <= |s|
    ensures forall k :: i <= k < i + n ==> IsWordChar(s[k])
    ensures i + n < |s| ==> !IsWordChar(s[i + n])
    decreases |s| - i
  {
    if i == |s| || !IsWordChar(s[i]) then 0 else 1 + WordRun(s, i + 1)
  }

  /** The pattern \[\w+\] matches at position i. */
  predicate MatchAt(s: string, i: nat) {
    i < |s| && s[i] == '[' && WordRun(s, i + 1) > 0
    && i + 1 + WordRun(s, i + 1) < |s| && s[i + 1 + WordRun(s, i + 1)] == ']'
  }

  /** The text of the match at position i: the bracket, the word, the closing bracket. */
  function MatchText(s: string, i: nat): (m: string)
    requires MatchAt(s, i)
    ensures BracketWord(m)
  {
    s[i..i + 2 + WordRun(s, i + 1)]
  }

  /** The text of the first match at or after position i. */
  function FindFrom(s: string, i: nat): (r: Option<string>)
    requires i <= |s|
    ensures r.None? ==> forall k :: i <= k < |s| ==> !MatchAt(s, k)
    ensures r.Some? ==>
      exists j :: i <= j < |s| && MatchAt(s, j) && (forall k :: i <= k < j ==> !MatchAt(s, k)) && r.value == MatchText(s, j)
    decreases |s| - i
  {
    if i == |s| then None
    else if MatchAt(s, i) then Some(MatchText(s, i))
    else FindFrom(s, i + 1)
  }

  /** An opening bracket, at least one word character, a closing bracket. */
  predicate BracketWord(m: string) {
    |m| >= 3 && m[0] == '[' && m[|m| - 1] == ']' && forall k :: 0 < k < |m| - 1 ==> IsWordChar(m[k])
  }

  predicate NoUpper(m: string) {
    forall k :: 0 <= k < |m| ==> !('A' <= m[k] <= 'Z')
  }

  /** regexp.FindString for \[(\w+)\]: the leftmost match, or "" when there is none. */
  function FindString(s: string): (r: string)
    ensures r == "" || BracketWord(r)
  {
    match FindFrom(s, 0)
    case None => ""
    case Some(m) => m
  }

  /** FindString is empty exactly when nothing matches, and otherwise is the leftmost match. */
  lemma FindStringLeftmost(s: string)
    ensures FindString(s) == "" <==> forall k :: 0 <= k < |s| ==> !MatchAt(s, k)
    ensures FindString(s) != "" ==>
      exists i :: 0 <= i < |s| && MatchAt(s, i) && (forall k :: 0 <= k < i ==> !MatchAt(s, k))
                  && FindString(s) == MatchText(s, i)
  {
  }

  /**
   * GetKernelLockdownMode: the first bracketed word of the trimmed
   * content, brackets kept, lower-cased; "" when there is none.
   */
  function GetKernelLockdownMode(file: Result<string, Error>): (r: Result<string, Error>)
    ensures r.Err? <==> file.Err?
    ensures file.Err? ==> r.error == Wrapped("failed to read lockdown mode", file.error)
    ensures file.Ok? ==> r.value == ToLower(FindString(TrimSpace(file.value)))
  {
    match file
    case Err(e) => Err(Wrapped("failed to read lockdown mode", e))
    case Ok(data) =>
      var line := TrimSpace(data);
      Ok(ToLower(FindString(line)))
  }

  /**
   * A mode is either empty or a lower-case bracketed word.
   */
  lemma ModeShape(file: Result<string, Error>)
    requires file.Ok?
    ensures var mode := GetKernelLockdownMode(file).value;
      mode == "" || (BracketWord(mode) && NoUpper(mode))
  {
    LowerBracketWord(FindString(TrimSpace(file.value)));
  }

  /** Lower-casing keeps a bracketed word bracketed and leaves no upper-case letter. */
  lemma LowerBracketWord(found: string)
    requires found == "" || BracketWord(found)
    ensures ToLower(found) == "" || (BracketWord(ToLower(found)) && NoUpper(ToLower(found)))
  {
    var mode := ToLower(found);
    if found != "" {
      forall k | 0 < k < |mode| - 1
        ensures IsWordChar(mode[k])
      {
        assert IsWordChar(found[k]);
      }
    }
  }

  /** Searching from i finds the first match at or after i. */
  lemma {:induction false} FindFromAt(s: string, i: nat, j: nat)
    requires i <= j < |s| && MatchAt(s, j)
    requires forall k :: i <= k < j ==> !MatchAt(s, k)
    ensures FindFrom(s, i) == Some(MatchText(s, j))
    decreases j - i
  {
    if i < j {
      FindFromAt(s, i + 1, j);
    }
  }

  /** A run of m word characters at i, followed by another character, is the word run at i. */
  lemma {:induction false} WordRunIs(t: string, i: nat, m: nat)
    requires i + m < |t| && !IsWordChar(t[i + m])
    requires forall k :: i <= k < i + m ==> IsWordChar(t[k])
    ensures WordRun(t, i) == m
    decreases m
  {
    if m > 0 {
      WordRunIs(t, i + 1, m - 1);
    }
  }

  /** The text at j spells the bracketed word w. */
  predicate SpellsAt(t: string, j: nat, w: string) {
    && j + |w| + 1 < |t| && t[j] == '[' && t[j + |w| + 1] == ']'
    && forall k :: 0 <= k < |w| ==> t[j + 1 + k] == w[k]
  }

  /** A bracketed word spelled at j is a match there, with that text. */
  lemma SpelledMatch(t: string, j: nat, w: string)
    requires w != [] && forall k :: 0 <= k < |w| ==> IsWordChar(w[k])
    requires SpellsAt(t, j, w)
    ensures MatchAt(t, j) && MatchText(t, j) == "[" + w + "]"
  {
    forall k | j + 1 <= k < j + 1 + |w|
      ensures IsWordChar(t[k])
    {
      assert t[j + 1 + (k - j - 1)] == w[k - j - 1];
    }
    WordRunIs(t, j + 1, |w|);
    assert t[j..j + 2 + |w|] == "[" + w + "]";
  }

  /**
   * A bracketed word at position j, with no opening bracket before it, is
   * what FindString finds.
   */
  lemma BracketedFound(t: string, j: nat, w: string)
    requires w != [] && forall k :: 0 <= k < |w| ==> IsWordChar(w[k])
    requires SpellsAt(t, j, w)
    requires forall k :: 0 <= k < j ==> t[k] != '['
    ensures FindString(t) == "[" + w + "]"
  {
    SpelledMatch(t, j, w);
    FindFromAt(t, 0, j);
  }

  /** Lower-casing a bracketed word lower-cases the word and keeps the brackets. */
  lemma LowerBracketed(w: string)
    ensures ToLower("[" + w + "]") == "[" + ToLower(w) + "]"
  {
    var l := ToLower("[" + w + "]");
    assert forall k :: 0 <= k < |w| ==> ("[" + w + "]")[k + 1] == w[k];
    assert forall k :: 0 <= k < |w| ==> l[k + 1] == ToLower(w)[k];
  }

  /**
   * Trimming the content keeps the active mode in place: the trimmed text
   * holds the bracketed word at some position j with no opening bracket
   * before it.
   */
  lemma TrimKeepsMode(a: string, w: string, b: string) returns (j: nat)
    requires '[' !in a
    requires w != [] && forall k :: 0 <= k < |w| ==> IsWordChar(w[k])
    ensures var t := TrimSpace(a + "[" + w + "]" + b);
      SpellsAt(t, j, w) && forall k :: 0 <= k < j ==> t[k] != '['
  {
    var s := a + "[" + w + "]" + b;
    var t := TrimSpace(s);
    var n := LeadingSpace(s);
    TrimSpacePadded(s);
    assert s[|a|] == '[' && !IsSpace(s[|a|]);
    assert s[|a| + |w| + 1] == ']' && !IsSpace(s[|a| + |w| + 1]);
    assert n <= |a|;
    assert |a| + |w| + 1 < n + |t|;
    j := |a| - n;
    assert forall k :: 0 <= k < |w| ==> s[|a| + 1 + k] == w[k];
    assert forall k :: 0 <= k < j ==> t[k] == s[n + k] == a[n + k];
  }

  /**
   * Whatever precedes the active mode without an opening bracket, and
   * whatever follows it, the mode read is the bracketed word in lower case.
   */
  lemma ActiveModeFound(a: string, w: string, b: string)
    requires '[' !in a
    requires w != [] && forall k :: 0 <= k < |w| ==> IsWordChar(w[k])
    ensures GetKernelLockdownMode(Ok(a + "[" + w + "]" + b)) == Ok("[" + ToLower(w) + "]")
  {
    var j := TrimKeepsMode(a, w, b);
    BracketedFound(TrimSpace(a + "[" + w + "]" + b), j, w);
    LowerBracketed(w);
  }

  class Attestable {
    var mode: string
    var timestamp: string

    constructor ()
      ensures mode == "" && timestamp == ""
    {
      mode := "";
      timestamp := "";
    }

    /**
     * Measure: on a read failure nothing is recorded; otherwise the mode
     * and the clock reading are stored and the measurement is that of the
     * mode Evidence reports.
     */
    method Measure(file: Result<string, Error>, now: string) returns (m: Result<string, Error>)
      modifies this
      ensures file.Err? ==>
        m == Err(Wrapped("failed to get kernel lockdown mode", GetKernelLockdownMode(file).error))
        && mode == old(mode) && timestamp == old(timestamp)
      ensures file.Ok? ==>
        mode == GetKernelLockdownMode(file).value && timestamp == now
        && m == Ok(EncodeMeasurement(mode))
      ensures m.Ok? ==> m.value == EncodeMeasurement(Evidence()[Name])
    {
      var current := GetKernelLockdownMode(file);
      if current.Err? {
        return Err(Wrapped("failed to get kernel lockdown mode", current.error));
      }
      timestamp := now;
      mode := current.value;
      return Ok(EncodeMeasurement(mode));
    }

    /** Evidence: the recorded mode and timestamp, nothing else. */
    function Evidence(): (r: map<string, string>)
      reads this
      ensures r.Keys == {Name, "timestamp"}
      ensures r[Name] == mode && r["timestamp"] == timestamp
    {
      map[Name := mode, "timestamp" := timestamp]
    }

    /** GetPCRs: this probe binds no PCR. */
    function GetPCRs(): (r: map<int, string>)
      ensures r == map[]
    {
      map[]
    }

    /** Quote: a placeholder that hands the nonce back unchanged. */
    function Quote(nonce: seq<byte>): (r: seq<byte>)
      ensures r == nonce
    {
      nonce
    }
  }
}
