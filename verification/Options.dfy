module Options {
  datatype Option<+T> = None | Some(value: T)

  /** An error return: the operation refused and changed nothing. */
  datatype Result<+T> = Ok(value: T) | Err
}
