/** Optional values, standing for Go's nil-able results (`error`, a missing map entry). */
module Wrappers {

  datatype Option<+T> = None | Some(value: T)
}
