/** The optional value used wherever the game holds a reference that may be null. */
module Wrappers {

  /** `None` plays the part of the game's `null`. */
  datatype Option<+T> = None | Some(value: T)
}
