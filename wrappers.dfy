/** The optional value that stands for Kotlin's nullable types and for a
    lookup that throws. */
module Wrappers {

  datatype Option<+T> = None | Some(value: T)
}
