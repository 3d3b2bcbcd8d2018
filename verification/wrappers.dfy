/** Optional values, used wherever the modelled C code returns NULL or "not found". */
module Wrappers {
  datatype Option<+T> = None | Some(value: T)
}
