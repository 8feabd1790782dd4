/**
 * Character classes used by the log-line patterns, restricted to ASCII.
 *
 * Python's `re` gives `\d`, `\w` and `\s` their Unicode meaning for `str`
 * patterns; this model keeps their ASCII part.  For whitespace that part also
 * holds the four separators U+001C..U+001F, which `str.isspace` (and so
 * `\s` and `str.strip`) counts as whitespace.
 */
module Text {

  datatype Option<+T> = None | Some(value: T)

  /** `\d` */
  predicate IsDigit(c: char) {
    '0' <= c <= '9'
  }

  predicate IsAsciiLetter(c: char) {
    'a' <= c <= 'z' || 'A' <= c <= 'Z'
  }

  /** `\w` */
  predicate IsWord(c: char) {
    IsAsciiLetter(c) || IsDigit(c) || c == '_'
  }

  /** `\s`, and the characters `str.strip()` removes */
  predicate IsSpace(c: char) {
    c == ' ' || '\t' <= c <= '\r' || '\U{1C}' <= c <= '\U{1F}'
  }

  /** `[0-9a-fA-F]` */
  predicate IsHex(c: char) {
    IsDigit(c) || 'a' <= c <= 'f' || 'A' <= c <= 'F'
  }

  /** `[a-zA-Z0-9_/\.-]`, the path class of the file-location pattern */
  predicate IsPathChar(c: char) {
    IsWord(c) || c == '/' || c == '.' || c == '-'
  }

  /** `str.upper()` on one character, ASCII only */
  function UpperChar(c: char): (u: char)
    ensures 'a' <= c <= 'z' ==> 'A' <= u <= 'Z' && u as int == c as int - 32
    ensures !('a' <= c <= 'z') ==> u == c
  {
    if 'a' <= c <= 'z' then (c as int - 32) as char else c
  }

  function Upper(s: string): (u: string)
    ensures |u| == |s|
    ensures forall k :: 0 <= k < |s| ==> u[k] == UpperChar(s[k])
  {
    seq(|s|, k requires 0 <= k < |s| => UpperChar(s[k]))
  }
}
