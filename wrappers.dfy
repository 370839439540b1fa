/** Option and Result, for values JavaScript leaves `null`/`undefined` and for
    operations that throw. */
module Wrappers {

  datatype Option<+T> = None | Some(value: T)

  datatype Result<+T, +E> = Ok(value: T) | Err(error: E)
}
