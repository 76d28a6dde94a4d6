/**
 Characters as the widget sees them.

 A Java `char` is a UTF-16 code unit, an unsigned 16-bit number, and the
 widget's text is a sequence of them. The character classes below are the
 ones the filters test, each given by its code-unit range.
 */
module Chars {

  newtype CodeUnit = x: int | 0 <= x < 0x1_0000

  type Text = seq<CodeUnit>

  const SPACE: CodeUnit := 0x20
  const DOT: CodeUnit := 0x2E
  const HYPHEN: CodeUnit := 0x2D
  const UNDERSCORE: CodeUnit := 0x5F
  /** '·', U+00B7 MIDDLE DOT, the separator in transliterated names. */
  const MIDDLE_DOT: CodeUnit := 0xB7
  /**
   The ideographs U+4E00..U+9FA5, assigned since Unicode 1.1; the CJK
   Unified Ideographs block itself runs on to U+9FFF.
   */
  const CJK_START: CodeUnit := 0x4E00
  const CJK_END: CodeUnit := 0x9FA5

  /** '0'..'9' */
  predicate IsAsciiDigit(c: CodeUnit)
  {
    0x30 <= c <= 0x39
  }

  /** 'a'..'z' */
  predicate IsAsciiLower(c: CodeUnit)
  {
    0x61 <= c <= 0x7A
  }

  /** 'A'..'Z' */
  predicate IsAsciiUpper(c: CodeUnit)
  {
    0x41 <= c <= 0x5A
  }

  predicate IsCjkUnified(c: CodeUnit)
  {
    CJK_START <= c <= CJK_END
  }

  /**
   The characters `\s` matches in a `java.util.regex` pattern without flags:
   space, tab, line feed, vertical tab, form feed and carriage return.
   */
  predicate IsRegexWhitespace(c: CodeUnit)
  {
    c == SPACE || 0x09 <= c <= 0x0D
  }

  /** A Dafny string of BMP characters as the code units Java stores for it. */
  function Units(s: string): (t: Text)
    requires forall i :: 0 <= i < |s| ==> s[i] as int < 0x1_0000
    ensures |t| == |s|
    ensures forall i :: 0 <= i < |s| ==> t[i] as int == s[i] as int
  {
    seq(|s|, i requires 0 <= i < |s| => s[i] as int as CodeUnit)
  }
}
