/** The optional value used wherever the kernel uses `Option`. */
module Wrappers {
  datatype Option<+T> = None | Some(value: T)
}
