/// The optional value used for lookups and parses that may have no answer.
module Wrappers {

  datatype Option<+T> = None | Some(value: T)
}
