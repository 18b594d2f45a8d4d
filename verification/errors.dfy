/** The error, Option and Result types shared by the model. */
module Errors {

  /** The two ways a run of the script can fail: a date outside the
      representable range (Python's OverflowError) and a string the date
      parser cannot interpret. */
  datatype Error = Overflow | Unparseable

  /** An optional field; `ValueOr` reads it with a fallback. */
  datatype Option<+T> = None | Some(value: T) {
    function ValueOr(fallback: T): T {
      if Some? then value else fallback
    }
  }

  datatype Result<+T> = Ok(value: T) | Err(error: Error)
}
