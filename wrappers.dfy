/** A value that may be absent: a regex that does not match, an optional field, a
    query that is not sent. */
module Wrappers {
  datatype Option<T> = None | Some(value: T)
}
