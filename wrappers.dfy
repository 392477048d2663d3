/** The conventional optional value, used for a parse that may yield NaN
    and for an average that may have no data. */
module Wrappers {
  datatype Option<+T> = None | Some(value: T)
}
