/** Option and the error-carrying result that stands for a raised HTTPException. */
module Outcomes {

  datatype Option<T> = None | Some(value: T)

  /** Why a repository operation was rejected (the human-readable detail text is not modelled). */
  datatype ErrorKind =
    | OrderNotFound       // "order not found"
    | DishesNotFound      // "some dishes were not found"
    | NotCancellable      // "an order can only be cancelled while in processing"
    | InvalidStatus       // "invalid status"
    | InvalidTransition   // "invalid status transition"

  /** Either the value an operation returns, or the HTTP status code and kind of the exception it raises. */
  datatype Result<T> = Ok(value: T) | Raised(code: int, kind: ErrorKind)
}
