/** Optional values and results shared by every module of the model. */
module Common {

  /** A value that may be missing: JavaScript's `undefined`/`null`, Java's `null`. */
  datatype Option<T> = None | Some(value: T)

  /** The outcome of an operation that can fail with an error value. */
  datatype Result<T, E> = Ok(value: T) | Err(error: E)

  /** `opt ?? dflt` */
  function OrElse<T>(opt: Option<T>, dflt: T): T
  {
    if opt.Some? then opt.value else dflt
  }
}
