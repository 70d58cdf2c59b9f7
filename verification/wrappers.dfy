/** A minimal optional value, used for "the first free pool slot, if any". */
module Wrappers {

  datatype Option<+T> = None | Some(value: T)
}
