/** Small wrapper datatypes shared by the roster and the tab session. */
module Options {

  /** A value that may be absent: a JSON field that is null or undefined. */
  datatype Option<+T> = None | Some(value: T)

  /** The outcome of one call to the order service: the decoded response
      body, or a rejected request (network error, non-2xx status). */
  datatype Reply<+T> = Ok(value: T) | Fail
}
