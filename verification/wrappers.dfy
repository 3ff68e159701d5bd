/** Optional values and the JavaScript notion of a number that may be NaN. */
module Wrappers {

  /** A value that may be absent: `undefined`/`null` in the source. */
  datatype Option<+T> = None | Some(value: T) {

    /** The wrapped value, or `default` when absent (JavaScript's `x ?? default`). */
    function GetOr(default: T): T {
      match this
      case Some(v) => v
      case None => default
    }
  }

  /** A JavaScript number as produced by `parseInt`/`parseFloat`: an integer or NaN.
      Fractions and infinities are not modelled. */
  datatype Num = Finite(v: int) | NaN {

    /** JavaScript truthiness of a number: NaN and 0 are falsy. */
    predicate Truthy() {
      Finite? && v != 0
    }

    /** `this || fallback` for a number. */
    function OrElse(fallback: int): int {
      if Truthy() then v else fallback
    }
  }

  /** An insert-payload field for a column that has a database default:
      left out of the payload, sent as `null`, or given a value. */
  datatype Field<+T> = Omitted | Null | Given(value: T) {

    /** The stored column value: the default when omitted, NULL when null. */
    function Stored(default: Option<T>): Option<T> {
      match this
      case Omitted => default
      case Null => None
      case Given(v) => Some(v)
    }
  }

  /** The outcome of one database call: the rows it returned, or an error it threw. */
  datatype Attempt<+T> = Done(value: T) | Failed

  /** What a request handler answers: a body (`Created` for a new record), or
      an error with the handler's message. */
  datatype Reply<+T> =
    | Ok(body: T)
    | Created(body: T)
    | BadRequest(message: string)
    | NotFound(message: string)
    | ServerError(message: string)
}
