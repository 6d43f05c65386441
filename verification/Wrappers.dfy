/**
 An optional value: `null`, `undefined` or a missing record of the source.
 */
module Wrappers {

  datatype Option<+T> = None | Some(value: T)
}
