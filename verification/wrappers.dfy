/** An optional value, for inputs the program may fail to obtain. */
module Wrappers {

  datatype Option<+T> = None | Some(value: T)
}
