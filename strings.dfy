/** The parts of java.lang.String the booking core relies on, over ASCII:
    toLowerCase, equalsIgnoreCase and isBlank. */
module Strings {

  /** Character.toLowerCase restricted to ASCII: 'A'..'Z' become 'a'..'z',
      every other character is left as it is. */
  function LowerChar(c: char): char
  {
    if 'A' <= c <= 'Z' then (c as int + 32) as char else c
  }

  /** String.toLowerCase, character by character. */
  function ToLowerCase(s: string): string
  {
    seq(|s|, i requires 0 <= i < |s| => LowerChar(s[i]))
  }

  /** String.equalsIgnoreCase: same length and the same characters once both
      sides are lower-cased. */
  predicate EqualsIgnoreCase(a: string, b: string)
  {
    ToLowerCase(a) == ToLowerCase(b)
  }

  /** Character.isWhitespace over ASCII: space, the controls TAB..CR
      (9..13) and the separators FS..US (28..31). */
  predicate IsWhitespace(c: char)
  {
    c == ' ' || ('\t' <= c <= '\r') || ('\U{1C}' <= c <= '\U{1F}')
  }

  /** String.isBlank: empty, or whitespace only. */
  predicate IsBlank(s: string)
  {
    forall i :: 0 <= i < |s| ==> IsWhitespace(s[i])
  }

  /** Lower-casing twice is lower-casing once. */
  lemma ToLowerCaseIdempotent(s: string)
    ensures ToLowerCase(ToLowerCase(s)) == ToLowerCase(s)
  {
  }
}
