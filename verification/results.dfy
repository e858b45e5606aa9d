/** Failure-carrying datatypes shared by the whole model.

    - `Option<T>` models Rust's `Option`.
    - `Result<T, E>` models Rust's `Result` (a value the program returns).
    - `Outcome<T>` models whether a call returns at all: `Panicked` stands for
      a Rust panic (`assert!`, `expect`, `unwrap` on a failure, an index out
      of bounds), which aborts the whole call with no partial result.
 */
module Results {

  datatype Option<+T> = None | Some(value: T)

  datatype Result<+T, +E> = Ok(value: T) | Err(error: E)

  datatype Outcome<+T> = Returned(value: T) | Panicked(message: string)

  /** An `f64` value: a number, an infinity (its sign is not kept) or NaN. */
  datatype Float = Number(value: real) | Infinity | NaN

  /** Message of `Option::unwrap` on `None`. */
  const UnwrapNone: string := "called `Option::unwrap()` on a `None` value"

  /** Message of `Result::unwrap` on `Err`. */
  const UnwrapErr: string := "called `Result::unwrap()` on an `Err` value"

  /** Opening line of the message of a failed `assert_eq!`. */
  const AssertEqFailed: string := "assertion `left == right` failed"

  /** Opening words of the message of an out-of-bounds slice index. */
  const IndexOutOfBounds: string := "index out of bounds"
}
