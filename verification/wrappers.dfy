/** The optional-value type shared by the other modules. */
module Wrappers {

  /** A value that may be absent: a session-state key that was never set, an
      upload widget holding no file, a pattern that does not match. */
  datatype Option<+T> = None | Some(value: T)
}
