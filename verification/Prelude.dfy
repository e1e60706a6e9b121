/** Small definitions shared by every model. */
module Prelude {

  datatype Option<+T> = None | Some(value: T)

  type Name = string

  /** Times and durations are whole nanoseconds, as Go's time.Duration counts them. */
  const SECOND: int := 1_000_000_000
  const MINUTE: int := 60 * SECOND
  const HOUR: int := 60 * MINUTE

  const INT64_MAX: int := 0x7FFF_FFFF_FFFF_FFFF

  /** unicode.IsSpace. */
  predicate IsSpace(c: char) {
    c in {' ', '\t', '\n', '\r', '\U{0B}', '\U{0C}', '\U{85}', '\U{A0}', '\U{1680}',
          '\U{2028}', '\U{2029}', '\U{202F}', '\U{205F}', '\U{3000}'} ||
    '\U{2000}' <= c <= '\U{200A}'
  }

  /** strings.TrimSpace(s) == "". */
  predicate Blank(s: string) {
    forall i :: 0 <= i < |s| ==> IsSpace(s[i])
  }

  type byte = x: int | 0 <= x < 256
}
