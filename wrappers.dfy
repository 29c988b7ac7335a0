/** Option and Result types shared by the whole model. */
module Wrappers {

  datatype Option<+T> = None | Some(value: T)

  /**
   * How a request can fail: the HTTP handlers answer 404, 400, 400 or 500
   * for the first four (an overlap Conflict is answered 400, like Invalid);
   * Unanswered is a handler that throws outside its try block, for which the
   * framework sends no response.
   */
  datatype Failure = NotFound | Conflict | Invalid | ServerError | Unanswered

  datatype Result<+T> = Ok(value: T) | Err(error: Failure)
}
