/** Small helper datatypes shared by both operators. */
module Wrappers {

  /** A value that may be absent: JavaScript's `undefined`, `null` or a missing option. */
  datatype Option<T> = None | Some(value: T)
}
