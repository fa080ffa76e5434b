/** The optional value used wherever the plugin leaves a JavaScript value `undefined`. */
module Wrappers {

  datatype Option<+T> = None | Some(value: T)
}
