/** Values for the exceptions the task tracker throws and the helpers it calls that may fail. */
module Outcomes {

  /** A value that may be absent (a file that does not exist). */
  datatype Option<+T> = None | Some(value: T)

  /** The exceptions that the modelled code raises or lets escape to its caller. */
  datatype Exception =
    | InvalidCommandInput(message: string, command: string)
    | CommandNotFound(message: string, input: string)
    | InvalidDateFormat(message: string)
    // java.util.List.get or remove with an index outside the list
    | IndexOutOfBounds
    // an array element read past the end of a String.split result
    | ArrayIndexOutOfBounds
    // String.substring with a begin index past the end of the string
    | StringIndexOutOfBounds
    // Integer.valueOf with a number that does not fit in an int
    | NumberFormat

  /** The outcome of an operation: a value, or an exception that escapes it. */
  datatype Result<+T> = Ok(value: T) | Raise(exception: Exception)

  /**
   * The outcome of a call into a helper that is not part of this model and
   * that declares one checked exception: it returns a value or throws that
   * exception with some message.
   */
  datatype Attempt<+T> = Returned(value: T) | Threw(message: string)
}
