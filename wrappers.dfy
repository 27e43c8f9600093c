/** The optional value returned by `Array.prototype.find` and held by `editingId`. */
module Wrappers {
  datatype Option<+T> = None | Some(value: T)
}
