/** Success and failure values shared by the models of the repository's tools. */
module Results {

  /** An operation of the source either returns a value or raises an error. */
  datatype Result<+T, +E> = Ok(value: T) | Err(error: E)

  /** A dictionary lookup or an optional field: a value or nothing. */
  datatype Option<+T> = None | Some(value: T)
}
