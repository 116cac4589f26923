/** The string primitives of the JavaScript runtime that the dashboard relies on:
    `toUpperCase`, `includes`, `trim`, and the white space that `trim` and
    `parseFloat` skip. Strings are sequences of characters; case mapping is the
    ASCII one. */
module JsText {

  /** ECMAScript WhiteSpace and LineTerminator code points, the set that
      `String.prototype.trim` removes and `parseFloat` skips at the front. */
  predicate IsWhitespace(c: char) {
    || c == '\t' || c == '\n' || c == '\U{B}' || c == '\U{C}' || c == '\r' || c == ' '
    || c == '\U{A0}' || c == '\U{1680}' || ('\U{2000}' <= c <= '\U{200A}')
    || c == '\U{2028}' || c == '\U{2029}' || c == '\U{202F}' || c == '\U{205F}'
    || c == '\U{3000}' || c == '\U{FEFF}'
  }

  /** The characters that `.` in a regular expression does not match. */
  predicate IsLineTerminator(c: char) {
    c == '\n' || c == '\r' || c == '\U{2028}' || c == '\U{2029}'
  }

  predicate IsAsciiUpper(c: char) {
    'A' <= c <= 'Z'
  }

  predicate IsAsciiLower(c: char) {
    'a' <= c <= 'z'
  }

  function UpperChar(c: char): (u: char)
    ensures IsAsciiLower(c) ==> IsAsciiUpper(u)
    ensures !IsAsciiLower(c) ==> u == c
  {
    if IsAsciiLower(c) then (c as int - 32) as char else c
  }

  function LowerChar(c: char): (l: char)
    ensures IsAsciiUpper(c) ==> IsAsciiLower(l)
    ensures !IsAsciiUpper(c) ==> l == c
  {
    if IsAsciiUpper(c) then (c as int + 32) as char else c
  }

  /** `s.toUpperCase()`, character by character: no lower-case letter is
      left, every other character is kept, and the text is the same once
      case is ignored. */
  function ToUpper(s: string): (u: string)
    ensures |u| == |s|
    ensures forall i :: 0 <= i < |s| ==> u[i] == UpperChar(s[i])
    ensures forall i :: 0 <= i < |u| ==> !IsAsciiLower(u[i])
    ensures forall i :: 0 <= i < |s| && !IsAsciiLower(s[i]) ==> u[i] == s[i]
    ensures ToLower(u) == ToLower(s)
  {
    var u := seq(|s|, i requires 0 <= i < |s| => UpperChar(s[i]));
    assert forall i :: 0 <= i < |s| ==> LowerChar(u[i]) == LowerChar(s[i]);
    u
  }

  /** `s.toLowerCase()`, character by character. */
  function ToLower(s: string): (l: string)
    ensures |l| == |s|
    ensures forall i :: 0 <= i < |s| ==> l[i] == LowerChar(s[i])
  {
    seq(|s|, i requires 0 <= i < |s| => LowerChar(s[i]))
  }

  /** Upper-casing forgets the case a string was written in. */
  lemma {:induction false} UpperForgetsCase(s: string)
    ensures ToUpper(ToUpper(s)) == ToUpper(s)
    ensures ToUpper(ToLower(s)) == ToUpper(s)
  {
    assert forall i :: 0 <= i < |s| ==> UpperChar(UpperChar(s[i])) == UpperChar(s[i]);
    assert forall i :: 0 <= i < |s| ==> UpperChar(LowerChar(s[i])) == UpperChar(s[i]);
  }

  /** `s.includes(sub)`: `sub` occurs in `s` as a contiguous piece. */
  predicate Contains(s: string, sub: string) {
    exists i :: 0 <= i <= |s| && OccursAt(s, sub, i)
  }

  /** `sub` occurs in `s` starting at index `i`. */
  predicate OccursAt(s: string, sub: string, i: nat) {
    i + |sub| <= |s| && s[i..i + |sub|] == sub
  }

  lemma {:induction false} ContainsChars(s: string, sub: string, c: char)
    requires Contains(s, sub)
    requires c in sub
    ensures c in s
  {
    var i :| 0 <= i <= |s| && OccursAt(s, sub, i);
    var j :| 0 <= j < |sub| && sub[j] == c;
    assert s[i + j] == c;
  }

  /** Number of white-space characters at the front of `s`. */
  function LeadingWhitespace(s: string): (n: nat)
    ensures n <= |s|
  {
    WhitespaceFrom(s, 0)
  }

  /** The index of the first character at or after `i` that is not white space. */
  function WhitespaceFrom(s: string, i: nat): (n: nat)
    requires i <= |s|
    ensures i <= n <= |s|
    decreases |s| - i
  {
    if i < |s| && IsWhitespace(s[i]) then WhitespaceFrom(s, i + 1) else i
  }

  lemma {:induction false} WhitespaceFromSpec(s: string, i: nat)
    requires i <= |s|
    ensures forall k :: i <= k < WhitespaceFrom(s, i) ==> IsWhitespace(s[k])
    ensures WhitespaceFrom(s, i) < |s| ==> !IsWhitespace(s[WhitespaceFrom(s, i)])
    decreases |s| - i
  {
    if i < |s| && IsWhitespace(s[i]) {
      WhitespaceFromSpec(s, i + 1);
    }
  }

  /** The white space at the front ends at the first other character. */
  lemma {:induction false} LeadingWhitespaceSpec(s: string)
    ensures forall i :: 0 <= i < LeadingWhitespace(s) ==> IsWhitespace(s[i])
    ensures LeadingWhitespace(s) < |s| ==> !IsWhitespace(s[LeadingWhitespace(s)])
  {
    WhitespaceFromSpec(s, 0);
  }

  /** Number of white-space characters at the back of `s`. */
  function TrailingWhitespace(s: string): (n: nat)
    ensures n <= |s|
    ensures forall i :: |s| - n <= i < |s| ==> IsWhitespace(s[i])
    ensures n < |s| ==> !IsWhitespace(s[|s| - 1 - n])
  {
    if |s| > 0 && IsWhitespace(s[|s| - 1]) then 1 + TrailingWhitespace(s[..|s| - 1]) else 0
  }

  /** `s.trimStart()`. */
  function TrimStart(s: string): string {
    s[LeadingWhitespace(s)..]
  }

  /** `s.trim()`: the longest piece of `s` that neither starts nor ends with
      white space, found by cutting white space off both ends. */
  function Trim(s: string): (t: string)
    ensures |t| <= |s|
    ensures t != [] ==> !IsWhitespace(t[0]) && !IsWhitespace(t[|t| - 1])
    ensures forall c :: c in t ==> c in s
  {
    LeadingWhitespaceSpec(s);
    var front := TrimStart(s);
    front[..|front| - TrailingWhitespace(front)]
  }

  /** Trimming removes only white space: what it leaves is a contiguous piece
      of `s`, with only white space before and after it. */
  lemma {:induction false} TrimRemovesOnlyWhitespace(s: string)
    ensures exists i, j ::
              && 0 <= i <= j <= |s| && Trim(s) == s[i..j]
              && (forall k :: 0 <= k < i ==> IsWhitespace(s[k]))
              && (forall k :: j <= k < |s| ==> IsWhitespace(s[k]))
  {
    LeadingWhitespaceSpec(s);
    var i := LeadingWhitespace(s);
    var front := s[i..];
    var j := i + |front| - TrailingWhitespace(front);
    assert Trim(s) == s[i..j];
    forall k | j <= k < |s| ensures IsWhitespace(s[k]) {
      assert s[k] == front[k - i];
    }
  }

  /** A string whose white space is all in front, ending at `i`, trims to what follows it. */
  lemma {:induction false} TrimExact(s: string, i: nat)
    requires i <= |s|
    requires forall k :: 0 <= k < i ==> IsWhitespace(s[k])
    requires i < |s| ==> !IsWhitespace(s[i]) && !IsWhitespace(s[|s| - 1])
    ensures Trim(s) == s[i..]
  {
    LeadingWhitespaceSpec(s);
    assert LeadingWhitespace(s) == i;
    var front := s[i..];
    assert front == [] || !IsWhitespace(front[|front| - 1]);
    assert TrailingWhitespace(front) == 0;
    assert front[..|front|] == front;
  }
}
