/** Option and Result, used for the program's error paths (end of scripted
    input, an empty column, a missing data file). */
module Wrappers {

  datatype Option<+T> = None | Some(value: T)

  datatype Result<+R, +E> = Success(value: R) | Failure(error: E)
}
