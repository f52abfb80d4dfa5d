/** An optional value: the `error` field of a result, and the `tone` and `format` fields that are not converted. */
module Wrappers {

  /** A value that may be absent. */
  datatype Option<+T> = None | Some(value: T)
}
