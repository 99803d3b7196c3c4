/** Failure-carrying datatypes shared by the whole model. */
module Results {

  /** A value that may be absent. */
  datatype Option<+T> = None | Some(value: T)

  /** Either a computed value or the error that stopped the computation,
      standing in for a Python exception that aborts the caller. */
  datatype Result<+T, +E> = Ok(value: T) | Err(error: E)
}
