/** The optional value used for nullable references (a fiber's `child`, `return`, ...). */
module Wrappers {
  datatype Option<+T> = None | Some(value: T)
}
