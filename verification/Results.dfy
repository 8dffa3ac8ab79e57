/** The two sum types the other modules share. */
module Results {

  /** A value that may be missing: Go's comma-ok results and nil pointers. */
  datatype Option<+T> = None | Some(value: T)

  /** Go's `(value, error)` pairs. */
  datatype Result<+T, +E> = Ok(value: T) | Err(error: E)
}
