/** Optional values, standing in for the null pointers and "not found" answers of the source. */
module Wrappers {

  datatype Option<+T> = None | Some(value: T)

}
