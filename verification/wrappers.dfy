/** The optional value used where the source raises an exception
    (a timestamp pandas cannot parse, a date Python's datetime cannot hold). */
module Wrappers {

  datatype Option<+T> = None | Some(value: T)
}
