/** The optional-value datatype of the registry lookup. */
module Wrappers {

  datatype Option<+T> = None | Some(value: T)
}
