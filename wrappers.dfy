/** Optional values and undefined outcomes shared by the loaders. */
module Wrappers {
  datatype Option<T> = None | Some(value: T)

  /**
    The result of a step of C++ code: a value, or Undefined where the code
    indexes past the end of an array, overflows a buffer or otherwise has
    undefined behaviour.
  */
  datatype Outcome<T> = Done(value: T) | Undefined
}
