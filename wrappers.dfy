/** Optional values: `None` stands for the null pointer the C code returns. */
module Wrappers {
  datatype Option<+T> = None | Some(value: T)
}
