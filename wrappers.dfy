/** The optional value used wherever the source returns `undefined` or leaves a field unset. */
module Wrappers {
  datatype Option<+T> = None | Some(value: T)
}
