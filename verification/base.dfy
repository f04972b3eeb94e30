/** Shared vocabulary: optional values, results, and the JavaScript notions of
    truthiness and white space that the handlers and components rely on. */
module Base {

  /** A value that may be absent (`undefined` in the JavaScript source). */
  datatype Option<+T> = None | Some(value: T)

  /** The outcome of an operation that either yields a value or raises an error. */
  datatype Result<+T, +E> = Ok(value: T) | Err(error: E)

  /** A byte, as carried by a percent-escape or a UTF-8 sequence. */
  type byte = x: int | 0 <= x < 256

  /** JavaScript truthiness of a string: only the empty string is falsy. */
  predicate Truthy(s: string)
  {
    |s| > 0
  }

  /** Truthiness of a possibly absent string field: `undefined` and `""` are falsy. */
  predicate Present(o: Option<string>)
  {
    o.Some? && Truthy(o.value)
  }

  /** The expression `o || d` for a possibly absent string field. */
  function OrElse(o: Option<string>, d: string): (r: string)
    ensures Present(o) ==> r == o.value
    ensures !Present(o) ==> r == d
  {
    if Present(o) then o.value else d
  }

  /** The ECMAScript WhiteSpace and LineTerminator code points: the characters
      matched by `\s` in a regular expression and removed by `String.prototype.trim`. */
  predicate IsWhitespace(c: char)
  {
    || c == '\t' || c == '\n' || c == '\U{000B}' || c == '\U{000C}' || c == '\r'
    || c == ' ' || c == '\U{00A0}' || c == '\U{1680}'
    || ('\U{2000}' <= c <= '\U{200A}')
    || c == '\U{2028}' || c == '\U{2029}' || c == '\U{202F}' || c == '\U{205F}'
    || c == '\U{3000}' || c == '\U{FEFF}'
  }

  /** `s.trim() !== ""`: the string holds a character that is not white space. */
  predicate HasNonWhitespace(s: string)
  {
    exists i :: 0 <= i < |s| && !IsWhitespace(s[i])
  }

  function Min(a: int, b: int): int
  {
    if a <= b then a else b
  }

  function Max(a: int, b: int): int
  {
    if a >= b then a else b
  }
}
