/** Failure-carrying datatypes shared by every router of the model. */
module Wrappers {

  datatype Option<+T> = None | Some(value: T) {

    /** The value if present, otherwise `fallback`: the `??` operator. */
    function ValueOr(fallback: T): T {
      if Some? then value else fallback
    }
  }

  /** The ways a request can fail.
      - Invalid: the request schema refused the input before the handler ran.
      - Internal: the handler answered INTERNAL_SERVER_ERROR, or the store
        raised an error (a duplicate key, a dangling reference) that the RPC
        layer reports the same way.
      - Unauthorized: the handler answered UNAUTHORIZED. */
  datatype ErrorKind = Invalid | Internal | Unauthorized

  datatype Result<+T> = Ok(value: T) | Err(error: ErrorKind)

  /** A check that either lets the request through or fails it. */
  datatype Outcome = Pass | Fail(error: ErrorKind)
}
