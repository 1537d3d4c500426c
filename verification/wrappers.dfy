/** Optional values, standing in for Swift's `Optional` in the syntax model. */
module Wrappers {

  datatype Option<+T> = None | Some(value: T)
}
