/** Types shared by every module: bytes, optional values, and the error taxonomy. */
module Prelude {

  /** An octet. Bit masks and shifts of the source are written with `/` and `%`. */
  type byte = x: int | 0 <= x < 256

  datatype Option<+T> = None | Some(value: T)

  /** `ErrorCategory`: what a thrown `Error` carries and what a metrics record keeps. */
  datatype ErrorCategory =
    | NoError
    | Configuration
    | Capability
    | Certificate
    | TlsPolicy
    | Handshake
    | Network
    | Protocol
    | Timeout
    | Internal

  /** The category of a thrown error. */
  type Failure = c: ErrorCategory | c != NoError witness Internal

  /** The outcome of a call that either returns a value or throws. */
  datatype Result<+T> = Ok(value: T) | Err(category: ErrorCategory)

  function Min(a: int, b: int): int {
    if a <= b then a else b
  }

  function Max(a: int, b: int): int {
    if a <= b then b else a
  }

  /** A finding, when the condition holds. */
  function When<T>(condition: bool, finding: T): seq<T> {
    if condition then [finding] else []
  }

  lemma HeadRejoins<T>(a: seq<T>, b: seq<T>)
    requires a != []
    ensures [a[0]] + (a[1..] + b) == a + b
  {
  }

  lemma SnocAssociates<T>(a: seq<T>, b: seq<T>, x: T)
    ensures a + (b + [x]) == (a + b) + [x]
  {
  }
}
