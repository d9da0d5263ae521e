/** Values shared by every part of the model: bytes, optional values and the
    two exceptions the plugin throws. */
module Common {

  /** One element of a `Uint8Array`. */
  type byte = b: int | 0 <= b < 0x100

  datatype Option<+T> = None | Some(value: T)

  /** The `Error`s thrown by `parseTarget` and `parseLs`. */
  datatype Error = InvalidTarget | InvalidLs

  /** The text each thrown `Error` carries. */
  function Message(e: Error): (m: string)
    ensures |m| > 0
  {
    match e
    case InvalidTarget => "invalid ssher target"
    case InvalidLs => "invalid ssher ls"
  }

  /** A value, or the exception that a synchronous call threw instead. */
  datatype Result<+T> = Ok(value: T) | Err(error: Error)
}
