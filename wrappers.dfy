/** The optional value used wherever the application works with a value that may be absent
    (a missing cell, a failed parse, an undefined mean). */
module Wrappers {
  datatype Option<+T> = None | Some(value: T)
}
