/** The conventional optional-value datatype, used for JavaScript values
    that may be `undefined` (a failed `find`, a missing response field). */
module Wrappers {
  datatype Option<T> = None | Some(value: T)
}
