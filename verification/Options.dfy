/** Optional values and the outcome of a builtin that may throw. */
module Options {

  datatype Option<+T> = None | Some(value: T)

  /** The two exceptions the modelled builtins raise. */
  datatype Error = TypeError | RangeError

  datatype Result<+T> = Ok(value: T) | Err(error: Error)
}
