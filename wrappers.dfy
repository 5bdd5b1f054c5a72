/** The optional-value datatype used for collaborator results that may be absent. */
module Wrappers {

  datatype Option<+T> = None | Some(value: T)
}
