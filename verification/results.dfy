/** Failure-carrying values used by every module: `Option` for Python's
    `None`-or-value, `Result` for a value or a raised exception. */
module Results {

  datatype Option<+T> = None | Some(value: T)

  datatype Result<+T, +E> = Ok(value: T) | Err(error: E)
}
