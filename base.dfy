/** Small wrappers shared by every module: an optional value (the source's
    `undefined` / `null`) and a result that carries one of the library's
    configuration errors (the source's thrown `Error`s). */
module Base {

  /** A value that may be absent. */
  datatype Option<T> = None | Some(value: T) {

    /** The value, or `default` when absent (a destructuring default). */
    function GetOr(default: T): T {
      if Some? then value else default
    }
  }

  /** The two configuration errors the library throws. */
  datatype ConfigError =
    | NotWithinProvider   // useDialogContext called with no DialogProvider above it
    | ProviderNotMounted  // dialog() called before any DialogProvider mounted

  /** The outcome of an operation that either succeeds or throws a configuration error. */
  datatype Result<T> = Ok(value: T) | Err(error: ConfigError)
}
