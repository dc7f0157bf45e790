/** Option, for lookups that may miss and for values that are not always defined. */
module Wrappers {

  datatype Option<+T> = None | Some(value: T)

}
