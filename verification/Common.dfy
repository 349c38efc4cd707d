/** Shared vocabulary: optional values, the errors a service call can raise, and time. */
module Common {
  datatype Option<+T> = None | Some(value: T)

  /** The kinds of exception a service raises; every one of them rolls the transaction back. */
  datatype Error =
    | BadRequest      // HTTP 400
    | NotFound        // HTTP 404, LookupError
    | Conflict        // HTTP 409, ValueError
    | Unprocessable   // HTTP 422
    | ServerError     // KeyError, TypeError, MultipleResultsFound

  datatype Result<+T> = Ok(value: T) | Err(error: Error)

  /** An instant, in microseconds since some whole UTC hour (the resolution of a Python datetime). */
  type Time = int

  const SECOND: Time := 1_000_000
  const MINUTE: Time := 60 * SECOND
  const HOUR: Time := 60 * MINUTE
  const DAY: Time := 24 * HOUR
}

/** Python's `strip` and `lower`, on the characters up to U+00A0. */
module Text {
  predicate IsSpace(c: char) {
    '\U{0009}' <= c <= '\U{000D}' || '\U{001C}' <= c <= '\U{0020}' || c == '\U{0085}' || c == '\U{00A0}'
  }

  function LeftStrip(s: string): string {
    if s != "" && IsSpace(s[0]) then LeftStrip(s[1..]) else s
  }

  function RightStrip(s: string): string {
    if s != "" && IsSpace(s[|s| - 1]) then RightStrip(s[..|s| - 1]) else s
  }

  function Strip(s: string): string {
    RightStrip(LeftStrip(s))
  }

  function Lower(s: string): string {
    seq(|s|, i requires 0 <= i < |s| =>
      if 'A' <= s[i] <= 'Z' then ((s[i] as int) + 32) as char else s[i])
  }

  /** The key by which labels are matched and addresses are cached. */
  function Normalize(s: string): string {
    Lower(Strip(s))
  }
}
