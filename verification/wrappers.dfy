/** The optional value used for regex matches that may fail and for state that may be absent. */
module Wrappers {

  datatype Option<+T> = None | Some(value: T)

}
