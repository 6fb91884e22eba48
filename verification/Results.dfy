/** Thrown errors and missing values, as data. */
module Results {

  /** A value, or the message of the error that was thrown instead. */
  datatype Result<+T> = Ok(value: T) | Err(code: string)

  datatype Option<+T> = None | Some(value: T)
}
