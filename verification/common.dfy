/** Small shared vocabulary: optional values, results, and bytes. */
module Common {

  /** A value that may be absent (Python's None). */
  datatype Option<+T> = None | Some(value: T)

  /** The outcome of an operation that can raise: a value, or the error it raised. */
  datatype Result<+T, +E> = Ok(value: T) | Err(error: E)

  /** One octet, as a Python `bytes` object holds it. */
  type byte = x: int | 0 <= x < 256
}
