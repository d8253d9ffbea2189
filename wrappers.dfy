/** Failure-carrying values shared by both backend variants. */
module Wrappers {

  /** A value that may be missing: Python's `Optional[T]` / `None`. */
  datatype Option<+T> = None | Some(value: T)

  /** An HTTP error raised by a router (`HTTPException(status_code, detail)`). */
  datatype HttpError = HttpError(code: int, detail: string)

  /** The outcome of a route handler: its response body, or the HTTP error it raises. */
  datatype Result<+T> = Ok(value: T) | Err(error: HttpError)
}
