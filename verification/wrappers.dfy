/** The optional-value type used where the program returns `T | null`. */
module Wrappers {

  datatype Option<+T> = None | Some(value: T)
}
