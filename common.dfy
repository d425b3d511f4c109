/** Small value types and the JavaScript string operations the scripts rely on
    (String.prototype.indexOf, replace with a string pattern, trim, toLowerCase
    restricted to ASCII, and split on line breaks). */
module Common {

  datatype Option<T> = None | Some(value: T)

  /** Concatenation regrouped. */
  lemma AppendAssoc<T>(a: seq<T>, b: seq<T>, c: seq<T>)
    ensures a + b + c == a + (b + c)
  {
  }

  /** The code points JavaScript treats as WhiteSpace or LineTerminator
      (used by String.prototype.trim and by parseInt). */
  predicate IsJsSpace(c: char) {
    c == '\t' || c == '\n' || c == '\U{B}' || c == '\U{C}' || c == '\r' || c == ' '
    || c == '\U{A0}' || c == '\U{1680}' || ('\U{2000}' <= c <= '\U{200A}')
    || c == '\U{2028}' || c == '\U{2029}' || c == '\U{202F}' || c == '\U{205F}'
    || c == '\U{3000}' || c == '\U{FEFF}'
  }

  predicate StartsWith(s: string, prefix: string) {
    |prefix| <= |s| && s[..|prefix|] == prefix
  }

  /** True when t occurs in s at position i. */
  predicate OccursAt(s: string, t: string, i: nat) {
    i + |t| <= |s| && s[i..i + |t|] == t
  }

  /** s.indexOf(t, from): the first position at or after `from` where t occurs. */
  function FindFrom(s: string, t: string, from: nat): (r: Option<nat>)
    requires from <= |s|
    decreases |s| - from
    ensures r.Some? ==> from <= r.value && OccursAt(s, t, r.value)
    ensures r.Some? ==> forall j :: from <= j < r.value ==> !OccursAt(s, t, j)
    ensures r.None? ==> forall j :: from <= j <= |s| ==> !OccursAt(s, t, j)
  {
    if OccursAt(s, t, from) then Some(from)
    else if from == |s| then None
    else FindFrom(s, t, from + 1)
  }

  /** s.indexOf(t), with -1 as None. */
  function Find(s: string, t: string): (r: Option<nat>)
    ensures r.Some? ==> OccursAt(s, t, r.value) && forall j :: 0 <= j < r.value ==> !OccursAt(s, t, j)
    ensures r.None? ==> forall j :: 0 <= j <= |s| ==> !OccursAt(s, t, j)
  {
    FindFrom(s, t, 0)
  }

  /** s.replace(t, u) with a string pattern: only the first occurrence is replaced. */
  function ReplaceFirst(s: string, t: string, u: string): (r: string)
    ensures (forall j :: 0 <= j <= |s| ==> !OccursAt(s, t, j)) ==> r == s
    ensures forall k: nat :: OccursAt(s, t, k) && (forall j :: 0 <= j < k ==> !OccursAt(s, t, j)) ==>
      r == s[..k] + u + s[k + |t|..] && |r| == |s| - |t| + |u|
  {
    match Find(s, t)
    case None => s
    case Some(k) => s[..k] + u + s[k + |t|..]
  }

  /** Number of leading JavaScript white-space characters of s. */
  function LeadingSpace(s: string): (n: nat)
    ensures n <= |s|
    ensures forall i :: 0 <= i < n ==> IsJsSpace(s[i])
    ensures n < |s| ==> !IsJsSpace(s[n])
  {
    if s == [] || !IsJsSpace(s[0]) then 0 else 1 + LeadingSpace(s[1..])
  }

  /** Number of trailing JavaScript white-space characters of s. */
  function TrailingSpace(s: string): (n: nat)
    ensures n <= |s|
    ensures forall i :: |s| - n <= i < |s| ==> IsJsSpace(s[i])
    ensures n < |s| ==> !IsJsSpace(s[|s| - n - 1])
  {
    if s == [] || !IsJsSpace(s[|s| - 1]) then 0 else 1 + TrailingSpace(s[..|s| - 1])
  }

  /** String.prototype.trim. */
  function Trim(s: string): (r: string)
    ensures r == [] || (!IsJsSpace(r[0]) && !IsJsSpace(r[|r| - 1]))
    ensures exists k :: 0 <= k <= |s| && StartsWith(s[k..], r) && AllSpace(s[..k]) && AllSpace(s[k..][|r|..])
  {
    var a := LeadingSpace(s);
    var rest := s[a..];
    var r := rest[..|rest| - TrailingSpace(rest)];
    assert StartsWith(s[a..], r) && AllSpace(s[..a]) && AllSpace(s[a..][|r|..]);
    r
  }

  predicate AllSpace(s: string) {
    forall i :: 0 <= i < |s| ==> IsJsSpace(s[i])
  }

  predicate IsUpperAscii(c: char) { 'A' <= c <= 'Z' }

  /** toLowerCase on one character; only ASCII letters are folded. */
  function LowerChar(c: char): (r: char)
    ensures !IsUpperAscii(r)
    ensures !IsUpperAscii(c) ==> r == c
  {
    if IsUpperAscii(c) then (c as int + 32) as char else c
  }

  /** String.prototype.toLowerCase, ASCII letters only. */
  function Lower(s: string): (r: string)
    ensures |r| == |s|
    ensures forall i :: 0 <= i < |s| ==> r[i] == LowerChar(s[i])
  {
    seq(|s|, i requires 0 <= i < |s| => LowerChar(s[i]))
  }

  predicate IsLineBreak(c: char) { c == '\r' || c == '\n' }

  /** s.split(/\r\n|\n|\r/g): the pieces between line breaks, with "\r\n" one break. */
  function SplitLines(s: string): (lines: seq<string>)
    ensures |lines| >= 1
  {
    SplitLinesFrom(s, "")
  }

  /** Splitting the rest s of the text when `line` has been read since the last break. */
  function SplitLinesFrom(s: string, line: string): (lines: seq<string>)
    decreases |s|
    ensures |lines| >= 1
  {
    if s == [] then [line]
    else if s[0] == '\r' && |s| > 1 && s[1] == '\n' then [line] + SplitLinesFrom(s[2..], "")
    else if IsLineBreak(s[0]) then [line] + SplitLinesFrom(s[1..], "")
    else SplitLinesFrom(s[1..], line + [s[0]])
  }

  predicate NoLineBreak(s: string) {
    forall i :: 0 <= i < |s| ==> !IsLineBreak(s[i])
  }

  /** No piece of a split contains a line break. */
  lemma {:induction false} SplitLinesFromNoBreak(s: string, line: string)
    requires NoLineBreak(line)
    ensures forall k :: 0 <= k < |SplitLinesFrom(s, line)| ==> NoLineBreak(SplitLinesFrom(s, line)[k])
    decreases |s|
  {
    if s == [] {
    } else if s[0] == '\r' && |s| > 1 && s[1] == '\n' {
      SplitLinesFromNoBreak(s[2..], "");
    } else if IsLineBreak(s[0]) {
      SplitLinesFromNoBreak(s[1..], "");
    } else {
      SplitLinesFromNoBreak(s[1..], line + [s[0]]);
    }
  }

  /** A text without line breaks is a single line: itself. */
  lemma {:induction false} SplitLinesFromSingle(s: string, line: string)
    requires NoLineBreak(s)
    ensures SplitLinesFrom(s, line) == [line + s]
    decreases |s|
  {
    if s != [] {
      assert !IsLineBreak(s[0]) && NoLineBreak(s[1..]);
      SplitLinesFromSingle(s[1..], line + [s[0]]);
      assert line + [s[0]] + s[1..] == line + s;
    } else {
      assert line + s == line;
    }
  }

  lemma SplitLinesProperties(s: string)
    ensures forall k :: 0 <= k < |SplitLines(s)| ==> NoLineBreak(SplitLines(s)[k])
    ensures NoLineBreak(s) ==> SplitLines(s) == [s]
  {
    SplitLinesFromNoBreak(s, "");
    if NoLineBreak(s) {
      SplitLinesFromSingle(s, "");
      assert "" + s == s;
    }
  }
}
