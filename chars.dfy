/** Character classes used by the label-derivation regexes and by String.prototype.trim. */
module Chars {

  /** `[A-Z]` in a regular expression without the `i` flag. */
  predicate IsUpper(c: char) { 'A' <= c <= 'Z' }

  /** `[a-z]` in a regular expression without the `i` flag. */
  predicate IsLower(c: char) { 'a' <= c <= 'z' }

  /** `\d` in a regular expression without the `u` flag: exactly `[0-9]`. */
  predicate IsDigit(c: char) { '0' <= c <= '9' }

  /** `[a-zA-Z]` */
  predicate IsLetter(c: char) { IsUpper(c) || IsLower(c) }

  /** `[a-z\d]` */
  predicate IsLowerOrDigit(c: char) { IsLower(c) || IsDigit(c) }

  /** The characters that `.` refuses to match: the ECMAScript LineTerminator set. */
  predicate IsLineTerminator(c: char) {
    var n := c as int;
    n == 0x0A || n == 0x0D || n == 0x2028 || n == 0x2029
  }

  /** The set `trim` removes: ECMAScript WhiteSpace (TAB, VT, FF, ZWNBSP and the
      Unicode space separators) together with LineTerminator. */
  predicate IsWhitespace(c: char) {
    var n := c as int;
    || n == 0x09 || n == 0x0B || n == 0x0C || n == 0xFEFF
    || n == 0x20 || n == 0xA0 || n == 0x1680 || 0x2000 <= n <= 0x200A
    || n == 0x202F || n == 0x205F || n == 0x3000
    || IsLineTerminator(c)
  }

  /** `toUpperCase` on one character, restricted to the ASCII letters. */
  function ToUpper(c: char): (u: char)
    ensures IsLower(c) ==> IsUpper(u) && u as int + 32 == c as int
    ensures !IsLower(c) ==> u == c
    ensures !IsLower(u)
    ensures IsLetter(u) <==> IsLetter(c)
    ensures IsDigit(u) <==> IsDigit(c)
    ensures IsWhitespace(u) <==> IsWhitespace(c)
    ensures IsLineTerminator(u) <==> IsLineTerminator(c)
  {
    if IsLower(c) then (c as int - 32) as char else c
  }

  /** `toUpperCase` on a string, character by character. */
  function ToUpperString(s: string): (r: string)
    ensures |r| == |s|
    ensures forall i :: 0 <= i < |s| ==> r[i] == ToUpper(s[i])
  {
    if s == [] then [] else [ToUpper(s[0])] + ToUpperString(s[1..])
  }
}
