/** Small value wrappers shared by the other modules. */
module Wrappers {

  datatype Option<+T> = None | Some(value: T)

  /** Go's two-result convention `(value, err)`: the value is meaningful when `err` is `None`,
      and is the value the Go code returns beside the error otherwise. */
  datatype WithError<+T, +E> = WithError(value: T, err: Option<E>) {
    predicate Ok() { err.None? }
  }
}
