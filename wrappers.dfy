/** The NULL-or-value results of the allocator's operations. */
module Wrappers {

  datatype Option<+T> = None | Some(value: T)
}
