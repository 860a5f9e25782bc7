/** Outcomes of the service's operations: an optional value, and a result that is
    either a value or the HTTP error an endpoint raises (`HTTPException`). */
module Outcomes {

  datatype Option<T> = None | Some(value: T)

  /** An `HTTPException`: the status code and the `detail` message. */
  datatype HttpError = HttpError(status: int, detail: string)

  /** The value an endpoint returns, or the HTTP error it raises. */
  datatype Result<T> = Ok(value: T) | Err(error: HttpError) {

    predicate IsFailure() {
      Err?
    }

    function PropagateFailure<U>(): Result<U>
      requires Err?
    {
      Err(error)
    }

    function Extract(): T
      requires Ok?
    {
      value
    }
  }

  const Unauthorized := 401
  const NotFound := 404
  const Conflict := 409
  /** The status the request-schema validation answers with before a handler runs. */
  const UnprocessableEntity := 422
}
