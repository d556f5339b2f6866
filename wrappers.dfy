/** The usual optional value, used for "no rule matched" and "no publish". */
module Wrappers {
  datatype Option<+T> = None | Some(value: T)
}
