/** Option and Result values shared by the pipeline's stages. */
module Common {

  /** A value that may be absent (a PHP `null` or a missing array key). */
  datatype Option<+T> = None | Some(value: T)

  /** The outcome of a stage that may raise: a value, or the message of the exception. */
  datatype Result<+T> = Ok(value: T) | Err(message: string)
}
