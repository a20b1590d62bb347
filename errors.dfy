/** The failures of the poster pipeline that the model reports as values
    instead of Python exceptions. */
module Errors {

  datatype Error =
    | MissingSeparator  // the ratio text has no ':' (an IndexError in the source)
    | NotANumber        // a ratio field is not a number (a ValueError from float())
    | ZeroHeight        // the ratio's height is zero (ZeroDivisionError when the ratio is formed)
    | ZeroWidth         // the ratio is zero (ZeroDivisionError at the scan's first height, or at its final one when the range is empty)
    | ZeroFrameWidth    // the frame width is zero (ZeroDivisionError when laying out the grid)

  datatype Result<T> = Ok(value: T) | Err(error: Error)

  /** Outcome of an operation that only changes state. */
  datatype Outcome = Pass | Fail(error: Error)
}
