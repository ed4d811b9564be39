/** The optional value used for the backing file, which may not exist yet. */
module Wrappers {
  datatype Option<+T> = None | Some(value: T)
}
