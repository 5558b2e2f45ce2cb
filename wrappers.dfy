/** The nullable references of the Kotlin code, as values. */
module Wrappers {
  datatype Option<+T> = None | Some(value: T)
}
