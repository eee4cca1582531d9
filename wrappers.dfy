/** The optional value used for PHP's nullable parameters and results. */
module Wrappers {

  /** `None` stands for PHP's `null` (or any other "no value" result). */
  datatype Option<+T> = None | Some(value: T)
}
