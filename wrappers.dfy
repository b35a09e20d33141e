/** The usual Option datatype: `None` stands for a missing value or a failed parse. */
module Wrappers {

  datatype Option<+T> = None | Some(value: T)
}
