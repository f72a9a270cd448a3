/** Small shared datatypes: optional values and HTTP replies. */
module Wrappers {

  datatype Option<+T> = None | Some(value: T)

  /** An HTTP reply as the controllers send it: a success status with its
      payload, or an error status with the `error` text of the JSON body. */
  datatype Reply<+T> =
    | Success(status: int, value: T)
    | Failure(status: int, error: string)
  {
    predicate IsSuccess() { Success? }
  }

  const OK: int := 200
  const CREATED: int := 201
  const BAD_REQUEST: int := 400
  const UNAUTHORIZED: int := 401
  const FORBIDDEN: int := 403
  const NOT_FOUND: int := 404
  const SERVER_ERROR: int := 500
}
