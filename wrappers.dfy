/** Option, the failure-carrying shape the model needs: `None` stands for a missing value. */
module Wrappers {

  datatype Option<+T> = None | Some(value: T)
}
