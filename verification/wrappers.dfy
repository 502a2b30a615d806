/** The optional value used for a line that may have failed to read and
    for a command whose output may be unavailable. */
module Wrappers {

  datatype Option<+T> = None | Some(value: T)
}
