/** Option, for values the source represents as None or as a missing result. */
module Wrappers {

  datatype Option<+T> = None | Some(value: T)
}
