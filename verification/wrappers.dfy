/** Failure-compatible wrappers shared by every module of the model. */
module Wrappers {

  datatype Option<+T> = None | Some(value: T) {
    function GetOr(default: T): T {
      match this
      case Some(v) => v
      case None => default
    }
  }

  /** `Err` stands for an exception the source throws (a structural failure). */
  datatype Result<+T, +E> = Ok(value: T) | Err(error: E) {
    predicate IsFailure() {
      Err?
    }
  }

  /**
   * `after` is `before` with the optional override `o` spread over it, as
   * `{...before, ...o}` does for one field: the override when given, else the old value.
   */
  predicate Overridden<T(==)>(o: Option<T>, before: T, after: T) {
    && (o.Some? ==> after == o.value)
    && (o.None? ==> after == before)
  }
}
