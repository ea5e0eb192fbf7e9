/** Optional values, used where the program works with "no value" (no checked button, no video file). */
module Wrappers {
  datatype Option<+T> = None | Some(value: T)
}
