/** Character classes the tokenizer relies on, as Rust's `char` defines them. */
module Chars {

  /** `char::is_whitespace`: the code points with the Unicode White_Space property. */
  predicate IsWhitespace(c: char)
  {
    || ('\t' <= c <= '\r')
    || c == ' '
    || c == '\U{0085}'
    || c == '\U{00A0}'
    || c == '\U{1680}'
    || ('\U{2000}' <= c <= '\U{200A}')
    || c == '\U{2028}'
    || c == '\U{2029}'
    || c == '\U{202F}'
    || c == '\U{205F}'
    || c == '\U{3000}'
  }

  /** `char::is_ascii` */
  predicate IsAscii(c: char)
  {
    c as int < 128
  }

  /** The `'0'..='9'` pattern. */
  predicate IsAsciiDigit(c: char)
  {
    '0' <= c <= '9'
  }

  /** `char::is_ascii_alphanumeric` */
  predicate IsAsciiAlphanumeric(c: char)
  {
    IsAsciiDigit(c) || ('a' <= c <= 'z') || ('A' <= c <= 'Z')
  }

  /** The six characters that are a token on their own. */
  predicate IsStructural(c: char)
  {
    c == '{' || c == '}' || c == '[' || c == ']' || c == ':' || c == ','
  }

  /** Literal text that `parse_val` can index without panicking: not empty, and one that
      starts with `"` is at least two characters long and ends with `"`. */
  predicate LiteralShaped(text: string)
  {
    |text| > 0 && (text[0] == '"' ==> |text| >= 2 && text[|text| - 1] == '"')
  }
}
