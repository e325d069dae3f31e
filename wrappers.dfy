// Optional values and error results shared by every module of the model.

module Wrappers {

  /** A field or argument that may be absent (Python's `Optional[...]`). */
  datatype Option<+T> = None | Some(value: T)

  /** The outcome of an operation that may raise. */
  datatype Result<+T, +E> = Success(value: T) | Failure(error: E)

  /** The Python exception an operation raises, with the message the source attaches to it. */
  datatype Error =
    | ValueError(message: string)
    | AssertionError(message: string)
    | IndexError
    | KeyError
    | RuntimeError(message: string)
    | ZeroDivisionError
}
