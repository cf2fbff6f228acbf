/** The optional value used wherever the source has `null`, `None` or a
    missing key, and the outcome of a request handler: a value, or the
    HTTP error status and detail it raises. */
module Wrappers {

  datatype Option<+T> = None | Some(value: T) {

    /** The held value, or `default` when there is none. */
    function GetOr(default: T): T {
      match this
      case Some(v) => v
      case None => default
    }
  }

  /** A handler's result. `Raised` is an exception other than an HTTP
      error (its class name), which the framework answers with status 500. */
  datatype Response<+T> = Ok(value: T) | HttpError(status: nat, detail: string) | Raised(name: string)
}
