/** Result and option types shared by every module: the source signals its
    failures with Python exceptions, which the model returns as values. */
module Common {

  datatype Option<T> = None | Some(value: T)

  /** The two exception classes the modelled code raises. */
  datatype Error = ValueError(message: string) | TypeError(message: string)

  datatype Result<T> = Ok(value: T) | Err(error: Error)
}
