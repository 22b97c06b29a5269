/** The optional value used where the scripts produce `undefined`, `NaN` or
    "nothing matched". */
module Wrappers {

  datatype Option<+T> = None | Some(value: T)
}
