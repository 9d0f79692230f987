/** Shapes shared by every part of the model: optional request fields and handler replies. */
module Common {

  /** A request field that may be absent (undefined in the request body). */
  datatype Option<T> = None | Some(value: T)

  /** What a handler sends back: a status code and either a body (the `{ success: true, ... }`
      envelope) or an error message (the `{ success: false, error }` envelope). */
  datatype Response<T> = Success(status: nat, body: T) | Failure(status: nat, error: string)
}
