/** The optional value used for every JavaScript attribute that may be `undefined`. */
module Wrappers {

  /** `None` stands for `undefined`: an attribute that was never set. */
  datatype Option<+T> = None | Some(value: T)
}
