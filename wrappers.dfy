/** The nullable values of the source (`string?`, `bool?`) and optional results. */
module Wrappers {

  datatype Option<+T> = None | Some(value: T)
}
