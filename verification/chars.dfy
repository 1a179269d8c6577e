/**
  Character classes used by the label patterns. JavaScript's `\s`, `\d`,
  `\w` and the case folding of the `i` flag are fixed to their ASCII
  meaning: `\s` (and `String.prototype.trim`) is space, tab, line feed,
  vertical tab, form feed and carriage return.
 */
module Chars {

  /** `\s`, restricted to ASCII. */
  predicate IsSpace(c: char) {
    c == ' ' || c == '\t' || c == '\n' || c == '\r' || c as int == 11 || c as int == 12
  }

  /** `\d`. */
  predicate IsDigit(c: char) {
    '0' <= c <= '9'
  }

  /** `[A-Z]` under the `i` flag. */
  predicate IsLetter(c: char) {
    'A' <= c <= 'Z' || 'a' <= c <= 'z'
  }

  /** `\w`, the characters that decide where `\b` holds. */
  predicate IsWordChar(c: char) {
    IsLetter(c) || IsDigit(c) || c == '_'
  }

  /** The case folding the `i` flag applies before comparing characters. */
  function ToUpper(c: char): (u: char)
    ensures IsLetter(c) <==> IsLetter(u)
    ensures !IsLetter(c) ==> u == c
    ensures !('a' <= u <= 'z')
  {
    if 'a' <= c <= 'z' then (c as int - 32) as char else c
  }

  /** `c` matches the pattern character `d` under the `i` flag. */
  predicate SameLetter(c: char, d: char) {
    ToUpper(c) == ToUpper(d)
  }
}
