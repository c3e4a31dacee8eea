/** An optional value: a column entry that may be missing (NaN / NaT / None). */
module Wrappers {
  datatype Option<+T> = None | Some(value: T)
}
