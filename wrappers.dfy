/** The optional value the model returns where the source prints "not found" or raises. */
module Wrappers {

  datatype Option<+T> = None | Some(value: T)

}
