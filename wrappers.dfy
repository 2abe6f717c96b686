/** The optional value used for a search that may find nothing and for a collaborator
    that may fail to deliver. */
module Wrappers {
  datatype Option<+T> = None | Some(value: T)
}
