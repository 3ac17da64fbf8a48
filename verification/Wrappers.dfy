/** Values that may be absent, as the scripts' `None` and their raised errors. */
module Wrappers {

  datatype Option<+T> = None | Some(value: T)
}
