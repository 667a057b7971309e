/**
 * The parts of Go's `strings` package the agent uses, over strings whose
 * characters stand for the bytes of a Go string.
 */
module Text {

  /** ASCII white space, the single-byte characters unicode.IsSpace accepts. */
  predicate IsSpace(c: char) {
    c == ' ' || c == '\t' || c == '\n' || c == '\r' || c == '\U{000B}' || c == '\U{000C}'
  }

  predicate NoSpace(s: string) {
    forall i :: 0 <= i < |s| ==> !IsSpace(s[i])
  }

  /** The number of white-space characters at the start of s. */
  function LeadingSpace(s: string): (n: nat)
    ensures n <= |s|
    ensures forall i :: 0 <= i < n ==> IsSpace(s[i])
    ensures n < |s| ==> !IsSpace(s[n])
  {
    if s != [] && IsSpace(s[0]) then 1 + LeadingSpace(s[1..]) else 0
  }

  /** The length of s once its trailing white space is dropped. */
  function TrailingSpaceStart(s: string): (n: nat)
    ensures n <= |s|
    ensures forall i :: n <= i < |s| ==> IsSpace(s[i])
    ensures 0 < n ==> !IsSpace(s[n - 1])
  {
    if s != [] && IsSpace(s[|s| - 1]) then TrailingSpaceStart(s[..|s| - 1]) else |s|
  }

  /** strings.TrimLeft with the white-space set: the suffix after the leading white space. */
  function TrimLeft(s: string): string
  {
    s[LeadingSpace(s)..]
  }

  /** strings.TrimRight with the white-space set: the prefix before the trailing white space. */
  function TrimRight(s: string): string
  {
    s[..TrailingSpaceStart(s)]
  }

  /** strings.TrimSpace */
  function TrimSpace(s: string): string
  {
    TrimRight(TrimLeft(s))
  }

  /** s is t with white space before it (the first i characters) and after it. */
  predicate PaddedAt(s: string, t: string, i: nat) {
    && i + |t| <= |s|
    && (forall k :: 0 <= k < i ==> IsSpace(s[k]))
    && (forall k :: 0 <= k < |t| ==> s[i + k] == t[k])
    && (forall k :: i + |t| <= k < |s| ==> IsSpace(s[k]))
  }

  predicate Padded(s: string, t: string) {
    exists i: nat :: i <= |s| && PaddedAt(s, t, i)
  }

  /** White space up to a non-space character at i is exactly the leading white space. */
  lemma LeadingSpaceAt(s: string, i: nat)
    requires i < |s| && !IsSpace(s[i])
    requires forall k :: 0 <= k < i ==> IsSpace(s[k])
    ensures LeadingSpace(s) == i
  {
  }

  /** White space after a non-space character at n - 1 is exactly the trailing white space. */
  lemma TrailingSpaceAt(s: string, n: nat)
    requires 0 < n <= |s| && !IsSpace(s[n - 1])
    requires forall k :: n <= k < |s| ==> IsSpace(s[k])
    ensures TrailingSpaceStart(s) == n
  {
  }

  /** Trimming removes white space only: s is its trimmed form padded with white space. */
  lemma TrimSpacePadded(s: string)
    ensures PaddedAt(s, TrimSpace(s), LeadingSpace(s))
  {
    var n := LeadingSpace(s);
    var l := s[n..];
    var m := TrailingSpaceStart(l);
    var t := l[..m];
    assert TrimSpace(s) == t;
    forall k | 0 <= k < |t|
      ensures s[n + k] == t[k]
    {
      assert t[k] == l[k];
    }
    forall k | n + m <= k < |s|
      ensures IsSpace(s[k])
    {
      assert s[k] == l[k - n];
    }
  }

  /** A word padded with white space trims back to that word. */
  lemma PaddedAtTrims(s: string, t: string, j: nat)
    requires t != [] && !IsSpace(t[0]) && !IsSpace(t[|t| - 1])
    requires PaddedAt(s, t, j)
    ensures TrimSpace(s) == t
  {
    assert s[j + 0] == t[0];
    LeadingSpaceAt(s, j);
    var l := s[j..];
    assert l[|t| - 1] == s[j + (|t| - 1)];
    forall k | |t| <= k < |l|
      ensures IsSpace(l[k])
    {
      assert l[k] == s[j + k];
    }
    TrailingSpaceAt(l, |t|);
    forall k | 0 <= k < |t|
      ensures l[..|t|][k] == t[k]
    {
      assert l[..|t|][k] == s[j + k];
    }
  }

  /**
   * Trimming yields a word that neither starts nor ends with white space
   * exactly when the input is that word padded with white space.
   */
  lemma TrimSpaceIs(s: string, t: string)
    requires t != [] && !IsSpace(t[0]) && !IsSpace(t[|t| - 1])
    ensures TrimSpace(s) == t <==> Padded(s, t)
  {
    if TrimSpace(s) == t {
      TrimSpacePadded(s);
      assert PaddedAt(s, t, LeadingSpace(s));
    }
    if Padded(s, t) {
      var j: nat :| j <= |s| && PaddedAt(s, t, j);
      PaddedAtTrims(s, t, j);
    }
  }

  /** The length of the run of non-space characters that starts s. */
  function WordLength(s: string): (n: nat)
    ensures n <= |s|
    ensures forall i :: 0 <= i < n ==> !IsSpace(s[i])
    ensures n < |s| ==> IsSpace(s[n])
  {
    if s == [] || IsSpace(s[0]) then 0 else 1 + WordLength(s[1..])
  }

  /** strings.Fields: the maximal runs of non-space characters, in order. */
  function Fields(s: string): (r: seq<string>)
    ensures forall k :: 0 <= k < |r| ==> r[k] != [] && NoSpace(r[k])
    decreases |s|
  {
    var t := TrimLeft(s);
    if t == [] then []
    else
      assert t[0] == s[LeadingSpace(s)];
      var w := WordLength(t);
      [t[..w]] + Fields(t[w..])
  }

  /** White space before the text starts no field: Fields skips it. */
  lemma FieldsSkipSpace(c: char, s: string)
    requires IsSpace(c)
    ensures Fields([c] + s) == Fields(s)
  {
    assert ([c] + s)[1..] == s;
    assert TrimLeft([c] + s) == TrimLeft(s);
  }

  /** Any run of white space before the text is skipped. */
  lemma {:induction false} FieldsSpaces(p: string, s: string)
    requires forall k :: 0 <= k < |p| ==> IsSpace(p[k])
    ensures Fields(p + s) == Fields(s)
  {
    if p != [] {
      var t := p[1..] + s;
      assert p + s == [p[0]] + t;
      calc {
        Fields(p + s);
        { FieldsSkipSpace(p[0], t); }
        Fields(t);
        { FieldsSpaces(p[1..], s); }
        Fields(s);
      }
    } else {
      assert p + s == s;
    }
  }

  /**
   * A word followed by white space, or by nothing, is exactly the first
   * field: a field ends at the first white space and no earlier.
   */
  lemma FieldsWord(w: string, rest: string)
    requires w != [] && NoSpace(w)
    requires rest == [] || IsSpace(rest[0])
    ensures Fields(w + rest) == [w] + Fields(rest)
  {
    var s := w + rest;
    assert !IsSpace(s[0]);
    assert LeadingSpace(s) == 0;
    assert TrimLeft(s) == s;
    var n := WordLength(s);
    assert forall i :: 0 <= i < |w| ==> !IsSpace(s[i]);
    assert |w| < |s| ==> IsSpace(s[|w|]);
    assert n == |w|;
    assert s[..n] == w && s[n..] == rest;
  }

  /** Joining at least two parts by spaces: the first part, a space, then the rest joined. */
  lemma JoinSpace(ws: seq<string>)
    requires |ws| >= 2
    ensures Join(ws, ' ') == ws[0] + ([' '] + Join(ws[1..], ' '))
  {
  }

  /** Words joined by single spaces split back into those words. */
  lemma {:induction false} FieldsJoin(ws: seq<string>)
    requires |ws| >= 1
    requires forall k :: 0 <= k < |ws| ==> ws[k] != [] && NoSpace(ws[k])
    ensures Fields(Join(ws, ' ')) == ws
  {
    if |ws| == 1 {
      assert ws[0] + [] == ws[0];
      FieldsWord(ws[0], []);
      assert Fields([]) == [];
    } else {
      var rest := ws[1..];
      var tail := Join(rest, ' ');
      JoinSpace(ws);
      FieldsWord(ws[0], [' '] + tail);
      FieldsSkipSpace(' ', tail);
      FieldsJoin(rest);
      calc {
        Fields(Join(ws, ' '));
        [ws[0]] + Fields([' '] + tail);
        [ws[0]] + rest;
        ws;
      }
    }
  }

  /** s with every white-space character removed. */
  function RemoveSpace(s: string): string
  {
    if s == [] then [] else (if IsSpace(s[0]) then [] else [s[0]]) + RemoveSpace(s[1..])
  }

  function Concat(ss: seq<string>): string
  {
    if ss == [] then [] else ss[0] + Concat(ss[1..])
  }

  lemma {:induction false} RemoveSpaceAppend(a: string, b: string)
    ensures RemoveSpace(a + b) == RemoveSpace(a) + RemoveSpace(b)
  {
    if a != [] {
      assert (a + b)[1..] == a[1..] + b;
      RemoveSpaceAppend(a[1..], b);
    } else {
      assert a + b == b;
    }
  }

  lemma {:induction false} RemoveSpaceOfSpaces(s: string)
    requires forall i :: 0 <= i < |s| ==> IsSpace(s[i])
    ensures RemoveSpace(s) == []
  {
    if s != [] {
      RemoveSpaceOfSpaces(s[1..]);
    }
  }

  lemma {:induction false} RemoveSpaceOfWord(s: string)
    requires NoSpace(s)
    ensures RemoveSpace(s) == s
  {
    if s != [] {
      RemoveSpaceOfWord(s[1..]);
      assert [s[0]] + s[1..] == s;
    }
  }

  /** Leading white space contributes nothing once spaces are removed. */
  lemma {:induction false} RemoveSpaceTrimLeft(s: string)
    ensures RemoveSpace(s) == RemoveSpace(TrimLeft(s))
  {
    var n := LeadingSpace(s);
    var lead := s[..n];
    assert s == lead + s[n..];
    RemoveSpaceAppend(lead, s[n..]);
    RemoveSpaceOfSpaces(lead);
  }

  /** A leading word survives space removal unchanged. */
  lemma {:induction false} RemoveSpaceWord(t: string, w: nat)
    requires w <= |t| && NoSpace(t[..w])
    ensures RemoveSpace(t) == t[..w] + RemoveSpace(t[w..])
  {
    assert t == t[..w] + t[w..];
    RemoveSpaceAppend(t[..w], t[w..]);
    RemoveSpaceOfWord(t[..w]);
  }

  /** Fields loses only the white space: its tokens concatenate to s without spaces. */
  lemma {:induction false} FieldsConcat(s: string)
    ensures Concat(Fields(s)) == RemoveSpace(s)
    decreases |s|
  {
    var t := TrimLeft(s);
    RemoveSpaceTrimLeft(s);
    if t != [] {
      var w := WordLength(t);
      var f := Fields(t[w..]);
      assert Fields(s) == [t[..w]] + f;
      assert ([t[..w]] + f)[1..] == f;
      RemoveSpaceWord(t, w);
      FieldsConcat(t[w..]);
    } else {
      assert Fields(s) == [];
    }
  }

  /** The position of the first c in s, or |s| when there is none. */
  function IndexOf(s: string, c: char): (k: nat)
    ensures k <= |s| && (k < |s| ==> s[k] == c)
    ensures forall i :: 0 <= i < k ==> s[i] != c
  {
    if s == [] || s[0] == c then 0 else 1 + IndexOf(s[1..], c)
  }

  function Count(s: string, c: char): nat
  {
    if s == [] then 0 else (if s[0] == c then 1 else 0) + Count(s[1..], c)
  }

  /** strings.Split with a one-character separator: the pieces between separators. */
  function Split(s: string, sep: char): (r: seq<string>)
    ensures |r| >= 1
    ensures forall k :: 0 <= k < |r| ==> sep !in r[k]
    decreases |s|
  {
    var k := IndexOf(s, sep);
    if k == |s| then [s] else [s[..k]] + Split(s[k + 1..], sep)
  }

  /** strings.Join with a one-character separator. */
  function Join(parts: seq<string>, sep: char): string
    requires |parts| >= 1
  {
    if |parts| == 1 then parts[0] else parts[0] + [sep] + Join(parts[1..], sep)
  }

  lemma {:induction false} CountAbsent(s: string, c: char)
    requires c !in s
    ensures Count(s, c) == 0
  {
    if s != [] {
      CountAbsent(s[1..], c);
    }
  }

  /** Counting across the first occurrence of c at position k. */
  lemma {:induction false} CountAcross(s: string, k: nat, c: char)
    requires k < |s| && s[k] == c
    requires forall i :: 0 <= i < k ==> s[i] != c
    ensures Count(s, c) == 1 + Count(s[k + 1..], c)
  {
    if k > 0 {
      assert s[1..][k..] == s[k + 1..];
      CountAcross(s[1..], k - 1, c);
    }
  }

  /** Split yields one more piece than there are separators. */
  lemma {:induction false} SplitCount(s: string, sep: char)
    ensures |Split(s, sep)| == Count(s, sep) + 1
    decreases |s|
  {
    var k := IndexOf(s, sep);
    if k == |s| {
      assert Split(s, sep) == [s];
      assert sep !in s;
      CountAbsent(s, sep);
    } else {
      var rest := s[k + 1..];
      assert Split(s, sep) == [s[..k]] + Split(rest, sep);
      SplitCount(rest, sep);
      CountAcross(s, k, sep);
    }
  }

  /** The first separator of a + [sep] + rest, when a has none, is the one after a. */
  lemma SplitCons(a: string, rest: string, sep: char)
    requires sep !in a
    ensures Split(a + [sep] + rest, sep) == [a] + Split(rest, sep)
  {
    var s := a + [sep] + rest;
    var k := IndexOf(s, sep);
    assert s[|a|] == sep;
    assert forall i :: 0 <= i < |a| ==> s[i] == a[i];
    assert k == |a|;
    assert s[..k] == a;
    assert s[k + 1..] == rest;
  }

  /** Join over a list of at least two parts: the first, the separator, then the rest joined. */
  lemma JoinCons(first: string, rest: seq<string>, sep: char)
    requires |rest| >= 1
    ensures Join([first] + rest, sep) == first + [sep] + Join(rest, sep)
  {
    assert ([first] + rest)[1..] == rest;
  }

  /** A string is what comes before position k, the character at k, and what comes after. */
  lemma SliceAround(s: string, k: nat)
    requires k < |s|
    ensures s == s[..k] + [s[k]] + s[k + 1..]
  {
  }

  /** Joining the pieces of a split with the same separator restores the string. */
  lemma {:induction false} SplitJoin(s: string, sep: char)
    ensures Join(Split(s, sep), sep) == s
    decreases |s|
  {
    var k := IndexOf(s, sep);
    if k == |s| {
      assert Split(s, sep) == [s];
    } else {
      var rest := s[k + 1..];
      assert Split(s, sep) == [s[..k]] + Split(rest, sep);
      SplitJoin(rest, sep);
      JoinCons(s[..k], Split(rest, sep), sep);
      SliceAround(s, k);
    }
  }

  /** A string without the separator splits into itself alone. */
  lemma SplitAbsent(s: string, sep: char)
    requires sep !in s
    ensures Split(s, sep) == [s]
  {
    assert IndexOf(s, sep) == |s|;
  }

  /** Splitting the join of separator-free pieces gives the pieces back. */
  lemma {:induction false} JoinSplit(parts: seq<string>, sep: char)
    requires |parts| >= 1
    requires forall k :: 0 <= k < |parts| ==> sep !in parts[k]
    ensures Split(Join(parts, sep), sep) == parts
  {
    if |parts| == 1 {
      SplitAbsent(parts[0], sep);
    } else {
      var rest := parts[1..];
      JoinSplit(rest, sep);
      SplitCons(parts[0], Join(rest, sep), sep);
      assert parts == [parts[0]] + rest;
    }
  }

  predicate HasPrefix(s: string, prefix: string) {
    |prefix| <= |s| && s[..|prefix|] == prefix
  }

  /** strings.Contains */
  function Contains(s: string, sub: string): (r: bool)
    ensures r <==> exists i :: 0 <= i <= |s| - |sub| && HasPrefix(s[i..], sub)
    decreases |s|
  {
    if HasPrefix(s, sub) then
      assert s[0..] == s;
      true
    else if |s| <= |sub| then false
    else
      var r := Contains(s[1..], sub);
      assert forall i :: 1 <= i <= |s| - |sub| ==> s[i..] == s[1..][i - 1..];
      assert r ==> exists i :: 0 <= i <= |s| - |sub| && HasPrefix(s[i..], sub) by {
        if r {
          var j :| 0 <= j <= |s[1..]| - |sub| && HasPrefix(s[1..][j..], sub);
          assert s[j + 1..] == s[1..][j..];
        }
      }
      r
  }

  /** strings.HasSuffix */
  predicate HasSuffix(s: string, suffix: string) {
    |suffix| <= |s| && s[|s| - |suffix|..] == suffix
  }

  /** strings.TrimSuffix */
  function TrimSuffix(s: string, suffix: string): (r: string)
    ensures HasSuffix(s, suffix) ==> r + suffix == s
    ensures !HasSuffix(s, suffix) ==> r == s
  {
    if HasSuffix(s, suffix) then s[..|s| - |suffix|] else s
  }

  function LowerChar(c: char): char {
    if 'A' <= c <= 'Z' then (c as int - 'A' as int + 'a' as int) as char else c
  }

  /** strings.ToLower, on ASCII letters. */
  function ToLower(s: string): (r: string)
    ensures |r| == |s|
    ensures forall i :: 0 <= i < |s| ==> r[i] == LowerChar(s[i])
  {
    if s == [] then [] else [LowerChar(s[0])] + ToLower(s[1..])
  }
}
