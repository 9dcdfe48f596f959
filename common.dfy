/** The two outcome types the model uses for Python's `None` results and
    raised exceptions. */
module Common {

  datatype Option<T> = None | Some(value: T)

  /** A Python call either returns a value or raises the named exception. */
  datatype Result<T> = Ok(value: T) | Raised(exception: string)
}
