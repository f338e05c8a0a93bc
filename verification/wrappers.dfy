/** Failure-carrying values used where the service raises an HTTP error. */
module Wrappers {

  datatype Option<+T> = None | Some(value: T)

  /** An HTTP error as raised by the request handlers: status code and detail text. */
  datatype HttpError = HttpError(status: int, detail: string)

  datatype Result<+R> = Ok(value: R) | Err(error: HttpError)
}
