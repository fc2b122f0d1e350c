/** The optional value used for timers that may or may not be pending. */
module Wrappers {

  datatype Option<+T> = None | Some(value: T)
}
