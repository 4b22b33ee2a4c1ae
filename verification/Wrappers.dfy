/** A value that may be absent: a missing row, an empty column or a SQL NULL. */
module Wrappers {

  datatype Option<+T> = None | Some(value: T)
}
