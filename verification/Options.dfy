/** Shared result types: an optional value, and a value or a raised error. */
module Options {

  datatype Option<+T> = None | Some(value: T)

  datatype Result<+T> = Ok(value: T) | Err(message: string)
}
