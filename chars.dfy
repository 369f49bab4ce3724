/** Character classes shared by the name normaliser and the DOI pattern
    (app/util/regex.py). Python 2 byte-string semantics: ASCII only. */
module Chars {

  /** `\s` of a Python 2 byte-string pattern, which is also the set that
      `str.strip()` removes: space, tab, newline, carriage return,
      form feed and vertical tab. */
  predicate IsSpace(c: char) {
    c == ' ' || c == '\t' || c == '\n' || c == '\r' || c == '\U{C}' || c == '\U{B}'
  }

  /** The class `[A-Z]`. */
  predicate IsUpper(c: char) {
    'A' <= c <= 'Z'
  }

  /** The class `[0-9]`. */
  predicate IsDigit(c: char) {
    '0' <= c <= '9'
  }

  /** `\w` without the UNICODE flag: `[a-zA-Z0-9_]`. */
  predicate IsWordChar(c: char) {
    'a' <= c <= 'z' || IsUpper(c) || IsDigit(c) || c == '_'
  }
}
