/** Failure-compatible result types shared by the model.
    A C++ `CHECK` that fails aborts the process; the model reports such an
    abort as a `Failed` result (or an `ok == false` out-parameter) instead. */
module Wrappers {

  /** A nullable value: `None` stands for a C++ NULL pointer. */
  datatype Option<+T> = None | Some(value: T)

  /** The outcome of an operation guarded by `CHECK`s: the value it produced,
      or the name of the check that aborted it. */
  datatype Result<+T> = Ok(value: T) | Failed(check: string)
}
