/** Optional values, handler results and the ways a request can fail. */
module Outcomes {

  /** Python's `X | None`. */
  datatype Option<+T> = None | Some(value: T) {

    /** `x if x is not None else default` */
    function GetOr(default: T): T {
      if Some? then value else default
    }
  }

  /** How a request ends when it does not succeed: an `HTTPException` raised
      by a handler, with its status code and detail text, or an unhandled
      database error raised at commit because a column bound, the unique
      email or a foreign key was violated (served as a 500 response), or an
      unhandled `OSError` raised while writing an uploaded file to disk (also
      a 500 response). */
  datatype Failure = Http(status: int, detail: string) | DatabaseError | StorageError

  datatype Result<+T> = Ok(value: T) | Err(error: Failure)
}
