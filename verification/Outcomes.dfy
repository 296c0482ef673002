/** What a Go call can end in: a value, a returned error, or a run-time panic. */
module Outcomes {
  datatype Outcome<+T> = Ok(value: T) | Err | Panic

  datatype Option<+T> = None | Some(value: T)
}
