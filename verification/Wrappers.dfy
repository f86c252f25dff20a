// Optional values, for the source's missing keys and raised exceptions.
module Wrappers {
  datatype Option<+T> = None | Some(value: T)
}
