/** The string predicate the application uses to tell a meaningful string
    from a missing or blank one. */
module TextHelpers {
  import opened Wrappers

  /** The characters `char.IsWhiteSpace` accepts: the control characters
      U+0009 to U+000D and U+0085, and the Unicode space, line and paragraph
      separators. */
  predicate IsWhiteSpace(c: char) {
    || ('\U{0009}' <= c <= '\U{000D}')
    || c == ' ' || c == '\U{0085}' || c == '\U{00A0}' || c == '\U{1680}'
    || ('\U{2000}' <= c <= '\U{200A}')
    || c == '\U{2028}' || c == '\U{2029}' || c == '\U{202F}' || c == '\U{205F}' || c == '\U{3000}'
  }

  /** The string extension `HasValue`: present and not blank
      (`!string.IsNullOrWhiteSpace(s)`). */
  predicate HasValue(s: Option<string>) {
    s.Some? && exists i :: 0 <= i < |s.value| && !IsWhiteSpace(s.value[i])
  }
}
