/** A plain Some/None datatype, used for lookups that can miss and for
    computations the source cannot carry out. */
module Wrappers {
  datatype Option<+T> = None | Some(value: T)
}
