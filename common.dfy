/** Types shared by every part of the model: bytes, the failure-carrying
    wrappers of Rust's standard library, and the two ways a Rust call can end
    (it returns, or it panics through an `expect`/`unwrap`). */
module Common {

  /** A `u8`. */
  type Byte = bv8

  datatype Option<+T> = None | Some(value: T)

  datatype Result<+T, +E> = Ok(value: T) | Err(error: E)

  /** How a call that may panic ends: it returns a value, or it panics with
      the message of the `expect` (or the `unwrap`) that failed. */
  datatype Exit<+T> = Return(value: T) | Panic(message: string)

  /** The kinds of `std::io::Error` the model distinguishes. */
  datatype IoError =
    | NotFound
    | PermissionDenied
    | InvalidInput
    | InvalidData
    | UnexpectedEof
    | Other(description: string)

  function Min(a: nat, b: nat): nat { if a <= b then a else b }
}
