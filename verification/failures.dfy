/** Failure-carrying results shared by every component of the model. */
module Failures {

  datatype Option<T> = None | Some(value: T)

  datatype Result<T> = Ok(value: T) | Err(error: Error)

  /** The run-time errors the script can raise, each named after its cause.
      The comment on each names the Python exception it stands for. */
  datatype Error =
    | MissingToken      // IndexError: the date string has fewer than three words
    | NotAnInteger      // ValueError: int() rejected a token
    | UnknownMonth      // KeyError: the month name is not in the table
    | DateOverflow      // OverflowError: a datetime.date argument does not fit a C int
    | InvalidDate       // ValueError: datetime.date rejected (year, month, day)
    | FormNameTooShort  // IndexError: the form name has no character at index 2
    | MissingRow        // IndexError: the results table has no row at the chosen index
}
