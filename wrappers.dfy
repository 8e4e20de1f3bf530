/** The absent-or-present value used wherever server.js returns `null` or an optional field. */
module Wrappers {
  datatype Option<T> = None | Some(value: T)
}
