/** The character classes the `$name` scanner tests, and the `Option` type. */
module CharClasses {

  datatype Option<+T> = None | Some(value: T)

  predicate IsDigit(c: char) {
    '0' <= c <= '9'
  }

  predicate IsNameStart(c: char) {
    'A' <= c <= 'Z' || 'a' <= c <= 'z' || c == '_'
  }

  predicate IsNameChar(c: char) {
    IsNameStart(c) || IsDigit(c)
  }

  /** ECMAScript's `\s`: white space, line terminators and the byte-order mark. */
  predicate IsSpace(c: char) {
    var n := c as int;
    || 9 <= n <= 13 || n == 0x20 || n == 0xA0 || n == 0x1680 || 0x2000 <= n <= 0x200A
    || n == 0x2028 || n == 0x2029 || n == 0x202F || n == 0x205F || n == 0x3000 || n == 0xFEFF
  }

  predicate AllNameChars(s: string) {
    forall i :: 0 <= i < |s| ==> IsNameChar(s[i])
  }

  /** A dotted path segment: it may start with a digit. */
  predicate ValidSegment(s: string) {
    s != "" && AllNameChars(s)
  }

  predicate ValidName(s: string) {
    ValidSegment(s) && IsNameStart(s[0])
  }
}
