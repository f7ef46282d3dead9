/** Option, the one wrapper datatype the model needs for absent JavaScript properties. */
module Wrappers {

  datatype Option<+T> = None | Some(value: T)
}
