/**
 * The character classes the GUI relies on, left abstract: Python's `\w`,
 * whitespace (`\s` and `str.strip`), `str.isalpha` and `str.lower`, taken one
 * character at a time. A value of `Classes` fixes one interpretation.
 */
module CharClasses {
  import opened CStrings

  datatype Classes = Classes(
    isWord: char -> bool,   // `\w`
    isSpace: char -> bool,  // `\s`, and what `strip()` removes
    isAlpha: char -> bool,  // `str.isalpha` on one character
    lower: char -> char)    // `str.lower` on one character

  {
    /** The one fact the analysis needs: a character that lowers to a letter is a word character. */
    ghost predicate Sane()
    {
      forall c: char {:trigger lower(c)} :: isAlpha(lower(c)) ==> isWord(c)
    }
  }

  predicate AsciiLetter(c: char)
  {
    'a' <= c <= 'z' || 'A' <= c <= 'Z'
  }

  /**
   * The classes restricted to ASCII: letters, digits and `_` are word
   * characters, and whitespace is what Python's `\s` and `strip()` take in
   * ASCII (space, `\t` to `\r`, and `\x1c` to `\x1f`).
   */
  function Ascii(): (cc: Classes)
    ensures cc.Sane()
  {
    Classes(
      c => AsciiLetter(c) || '0' <= c <= '9' || c == '_',
      c => c == ' ' || '\t' <= c <= '\r' || '\U{001C}' <= c <= '\U{001F}',
      c => AsciiLetter(c),
      c => ToLower(c))
  }
}
