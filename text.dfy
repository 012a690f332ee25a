/**
 * Kotlin's `isBlank` on the JVM: a string is blank when every character is
 * whitespace in the sense of `Char.isWhitespace`, which is Java's
 * `Character.isWhitespace` or `Character.isSpaceChar`.
 */
module Text {

  /** The space, line and paragraph separators of Unicode, plus the ASCII controls Java counts as white. */
  predicate IsWhitespace(c: char)
  {
    || c == ' ' || c == '\t' || c == '\n' || c == '\r'
    || c == '\U{B}' || c == '\U{C}'                   // vertical tab, form feed
    || ('\U{1C}' <= c <= '\U{1F}')                    // file, group, record and unit separators
    || c == '\U{A0}' || c == '\U{1680}'
    || ('\U{2000}' <= c <= '\U{200A}')
    || c == '\U{2028}' || c == '\U{2029}'             // line and paragraph separators
    || c == '\U{202F}' || c == '\U{205F}' || c == '\U{3000}'
  }

  /** `isBlank`: empty, or whitespace only. */
  predicate IsBlank(s: string)
  {
    forall i :: 0 <= i < |s| ==> IsWhitespace(s[i])
  }
}
