/** Failure-carrying values shared by every stage of the pipeline. */
module Wrappers {

  datatype Option<+T> = None | Some(value: T)

  /** The value of a stage, or the error (a Python exception) that stops the run. */
  datatype Result<+T, +E> = Ok(value: T) | Err(error: E)

  /** The end of a step that only changes state: it ran through, or it raised. */
  datatype Outcome<+E> = Pass | Fail(error: E)
}
