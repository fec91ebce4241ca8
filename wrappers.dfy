/** Kotlin's nullable values (`String?`), as an Option. */
module Wrappers {

  datatype Option<+T> = None | Some(value: T)
}
