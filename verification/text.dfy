/**
 * Character classes and string predicates of ECMAScript that the contact code
 * relies on: the whitespace set shared by `\s` and `String.prototype.trim`,
 * the line terminators that the regular-expression `.` refuses, the word
 * characters behind `\b`, and the ASCII case folding of the `/i` flag.
 */
module Text {

  /** ECMAScript LineTerminator: the characters the regular-expression `.` does not match. */
  predicate IsLineTerminator(c: char) {
    c == '\n' || c == '\r' || c == '\U{2028}' || c == '\U{2029}'
  }

  /**
   * ECMAScript WhiteSpace or LineTerminator. This is both the class `\s` and
   * the set `trim` strips from either end of a string.
   */
  predicate IsJsSpace(c: char) {
    || c == '\t' || c == '\U{000B}' || c == '\U{000C}' || c == ' '
    || c == '\U{00A0}' || c == '\U{FEFF}' || c == '\U{1680}'
    || ('\U{2000}' <= c <= '\U{200A}')
    || c == '\U{202F}' || c == '\U{205F}' || c == '\U{3000}'
    || IsLineTerminator(c)
  }

  /** The class `\w` without the `u` flag: the characters that decide `\b`. */
  predicate IsWordChar(c: char) {
    ('a' <= c <= 'z') || ('A' <= c <= 'Z') || ('0' <= c <= '9') || c == '_'
  }

  /**
   * Case folding as the `/i` flag without `u` applies it when the pattern is
   * ASCII: ASCII letters match either case, and no other character ever
   * folds onto an ASCII letter.
   */
  function FoldAscii(c: char): char {
    if 'A' <= c <= 'Z' then (c as int + 32) as char else c
  }

  /** `t` occurs in `s` at index `i` (case-sensitive). */
  predicate OccursAt(s: string, i: int, t: string) {
    0 <= i && i + |t| <= |s| && s[i..i + |t|] == t
  }

  /** `t` occurs in `s` at index `i`, comparing under `FoldAscii`. */
  predicate OccursAtCI(s: string, i: int, t: string) {
    && 0 <= i && i + |t| <= |s|
    && forall k | 0 <= k < |t| :: FoldAscii(s[i + k]) == FoldAscii(t[k])
  }

  /** The search `/t/.test(s)` for a pattern `t` made of literal characters. */
  predicate Contains(s: string, t: string) {
    exists i | 0 <= i <= |s| :: OccursAt(s, i, t)
  }

  /** The search `/t/i.test(s)` for a pattern `t` made of literal ASCII characters. */
  predicate ContainsCI(s: string, t: string) {
    exists i | 0 <= i <= |s| :: OccursAtCI(s, i, t)
  }

  /** `\b` holds just before a pattern that starts with a word character. */
  predicate WordStartsAt(s: string, i: int)
    requires 0 <= i <= |s|
  {
    i == 0 || !IsWordChar(s[i - 1])
  }

  /** `\b` holds just after a pattern that ends with a word character. */
  predicate WordEndsAt(s: string, i: int)
    requires 0 <= i <= |s|
  {
    i == |s| || !IsWordChar(s[i])
  }

  /** No line terminator in `s[a..b]`: the stretch a `.*` can span. */
  predicate NoLineTerminator(s: string, a: int, b: int)
    requires 0 <= a <= b <= |s|
  {
    forall k | a <= k < b :: !IsLineTerminator(s[k])
  }

  /** Every character of `s` is whitespace (the empty string included). */
  predicate Blank(s: string) {
    forall i | 0 <= i < |s| :: IsJsSpace(s[i])
  }

  /** `trimStart`: drops the leading whitespace and keeps the rest. */
  function TrimStart(s: string): (r: string)
    ensures |r| <= |s| && r == s[|s| - |r|..]
    ensures forall i | 0 <= i < |s| - |r| :: IsJsSpace(s[i])
    ensures |r| > 0 ==> !IsJsSpace(r[0])
  {
    if |s| > 0 && IsJsSpace(s[0]) then TrimStart(s[1..]) else s
  }

  /** `trimEnd`: drops the trailing whitespace and keeps the rest. */
  function TrimEnd(s: string): (r: string)
    ensures |r| <= |s| && r == s[..|r|]
    ensures forall i | |r| <= i < |s| :: IsJsSpace(s[i])
    ensures |r| > 0 ==> !IsJsSpace(r[|r| - 1])
  {
    if |s| > 0 && IsJsSpace(s[|s| - 1]) then TrimEnd(s[..|s| - 1]) else s
  }

  /** `String.prototype.trim`. */
  function Trim(s: string): string {
    TrimEnd(TrimStart(s))
  }

  /** A string trims to the empty string exactly when it is all whitespace. */
  lemma TrimEmptyIffBlank(s: string)
    ensures Trim(s) == "" <==> Blank(s)
  {
    var t := TrimStart(s);
    if Trim(s) == "" {
      // a non-empty `t` starts with a non-space, which `TrimEnd` would keep
      assert |t| == 0;
    } else {
      var r := Trim(s);
      assert r[0] == t[0];
      assert !IsJsSpace(s[|s| - |t|]);
    }
  }
}
