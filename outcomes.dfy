/**
 * Values shared by every part of the server model: an optional value (Python's
 * `None`), the exceptions the server code can raise, and the outcome of a call
 * that either returns or raises.
 */
module Outcomes {

  /** `None` is Python's `None`; `Some(v)` is any other value. */
  datatype Option<+T> = None | Some(value: T)

  /** The exceptions that the modelled functions can raise. */
  datatype Exception =
    | AssertionError      // a failed `assert`
    | ValueError          // unpacking a list of the wrong length
    | KeyError            // a missing dictionary key, or `raise KeyError`
    | IndexError          // indexing an empty list
    | UnicodeDecodeError  // request bytes that are not UTF-8

  /** What a Python call does: return a value or raise an exception. */
  datatype Outcome<+T> = Returned(value: T) | Raised(exc: Exception)
}
