/**
  The two pieces of Java string behaviour the client relies on: a `String`
  reference may be null, and string concatenation renders null as "null";
  and commons-lang's `StringUtils.isBlank`, which treats null, the empty
  string and strings of `Character.isWhitespace` chars alike.
*/
module JavaText {
  import opened Wrappers

  /** A Java `String` reference: None is null. */
  type JString = Option<string>

  /** What `+` on strings makes of a reference: its text, or "null". */
  function Str(s: JString): (r: string)
  {
    match s
    case None => "null"
    case Some(t) => t
  }

  /**
    `Character.isWhitespace(char)`: the Unicode space, line and paragraph
    separators other than the no-break spaces U+00A0, U+2007 and U+202F,
    and the controls U+0009 to U+000D and U+001C to U+001F.
  */
  predicate IsWhitespace(c: char) {
    || '\U{9}' <= c <= '\U{D}'
    || '\U{1C}' <= c <= '\U{1F}'
    || c == ' '
    || c == '\U{1680}'
    || ('\U{2000}' <= c <= '\U{200A}' && c != '\U{2007}')
    || c == '\U{2028}' || c == '\U{2029}'
    || c == '\U{205F}' || c == '\U{3000}'
  }

  /** `StringUtils.isBlank`: null, empty, or whitespace only. */
  predicate IsBlank(s: JString) {
    s.None? || forall i :: 0 <= i < |s.value| ==> IsWhitespace(s.value[i])
  }
}
