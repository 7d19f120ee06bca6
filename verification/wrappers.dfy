/** Small result types shared by the whole model. */
module Wrappers {

  /** A value that may be absent: JavaScript's `null` / `undefined`. */
  datatype Option<+T> = None | Some(value: T) {

    /** The value, or `default` when absent (the `x || default` idiom on non-falsy values). */
    function GetOr(default: T): T {
      match this
      case Some(v) => v
      case None => default
    }
  }

  /** The settled answer of one request to the hosted backend, which the model
      takes as an input rather than computing:
      - Ok(data): the request succeeded and returned `data`;
      - Failed(message): the client library returned an `error` object with this message;
      - Threw(thrown): the awaited call threw; `thrown` is the exception's message, if it has one. */
  datatype Reply<+T> = Ok(data: T) | Failed(message: string) | Threw(thrown: Option<string>)

  /** A call that either completes with a value or raises an error with a message. */
  datatype Outcome<+T> = Returned(value: T) | Raised(message: string)
}
