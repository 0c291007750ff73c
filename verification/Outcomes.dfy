/** Result vocabulary shared by every component model. */
module Outcomes {

  datatype Option<+T> = None | Some(value: T)

  /** The error families the modelled operations report. */
  datatype Error =
    | Invalid
    | Stale
    | OutcomeUnknown
    | Conflict
    | TargetNotEmpty
    | LimitExceeded
    | InProgress
    | Referenced

  datatype Result<+T> = Ok(value: T) | Err(error: Error)
}
