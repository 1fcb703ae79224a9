/** The "value or nothing" result the parser returns: Python's `Optional`. */
module Wrappers {

  /** `None` models Python's `None`; `Some(v)` a present value. */
  datatype Option<+T> = None | Some(value: T)
}
