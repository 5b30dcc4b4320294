/** Failure-carrying values shared by the model: an optional value, a
    result with a typed error, and the outcome of a Python call, which
    either returns or raises. */
module Wrappers {

  datatype Option<+T> = None | Some(value: T)

  datatype Result<+T, +E> = Ok(value: T) | Err(error: E)

  /** A raised Python exception. `Exception` covers every subclass of
      `Exception` (ValueError, NameError, ...); `BaseException` covers
      the others (KeyboardInterrupt, SystemExit, GeneratorExit), which an
      `except Exception` clause does not catch. */
  datatype Raise =
    | Exception(kind: string, message: string)
    | BaseException(kind: string, message: string)

  /** What one call of a Python function did. */
  datatype Outcome<+T> = Returned(value: T) | Raised(error: Raise)

  /** The outcome of a call that reads answers from an oracle, numbered
      from some `next` on, and the index of the first answer it left
      unread: it made `after - next` requests. */
  datatype Asked<+T> = Asked(outcome: Outcome<T>, after: nat)
}
