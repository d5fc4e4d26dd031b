/** Result types shared by the modules of this project. */
module Options {

  /** A value that may be absent: the source's `undefined` or `null`. */
  datatype Option<+T> = None | Some(value: T)

  /** A value, or the error the source throws. */
  datatype Result<+T, +E> = Ok(value: T) | Err(error: E)
}
