/** Option and Result: the Go code's `(value, error)` pairs and its "absent" cases. */
module Options {

  datatype Option<+T> = None | Some(value: T)

  datatype Result<+T, +E> = Ok(value: T) | Err(error: E)
}
