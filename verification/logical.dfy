/** The pair (response, error) that a transit path handler returns to the
    request layer, as a single sum type. */
module Logical {

  datatype Reply<+T> =
    /** `&logical.Response{Data: ...}, nil` */
    | Data(data: T)
    /** `nil, nil`: no response body and no error */
    | Nothing
    /** `logical.ErrorResponse(msg), nil` */
    | ErrorResponse(message: string)
    /** `logical.ErrorResponse(msg), logical.ErrInvalidRequest` */
    | InvalidRequest(message: string)
    /** `nil, err`: an internal error is passed up unchanged */
    | InternalError(message: string)
    /** An unchecked Go type assertion failed on the named field: the handler panics */
    | Panic(field: string)

  /** Go's `%q` verb for a string without characters that need escaping. */
  function Quote(s: string): string {
    "\"" + s + "\""
  }
}
