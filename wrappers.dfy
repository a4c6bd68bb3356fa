/** The optional value used for a lemming's last frame time (Python's `None`). */
module Wrappers {
  datatype Option<+T> = None | Some(value: T)
}
