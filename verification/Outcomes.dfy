/** The answers that several parts give. */
module Outcomes {

  datatype Option<+T> = None | Some(value: T)

  /** A value, or the error the source returns in its place. */
  datatype Result<+T> = Ok(value: T) | Error(message: string)
}
