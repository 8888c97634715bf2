/** Small shared vocabulary: optional values and bytes. */
module Common {

  /** A value that may be absent (Python's `None`). */
  datatype Option<+T> = None | Some(value: T)

  /** One byte of a stored BLOB or an uploaded file. */
  type byte = x: int | 0 <= x < 256

  function Max(a: int, b: int): int {
    if a < b then b else a
  }
}
