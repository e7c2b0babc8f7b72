/**
  How a run of the report tool stops early. The tool has no recovery path: a
  problem is either reported with `Logger.error` followed by `exit(1)`, or it is
  an uncaught Python exception. Both end the process with a non-zero status.
*/
module Errors {

  datatype Result<+T> = Ok(value: T) | Err(error: Error) {
    predicate IsFailure() { Err? }

    function PropagateFailure<U>(): Result<U>
      requires Err?
    {
      Err(error)
    }

    function Extract(): T
      requires Ok?
    {
      value
    }
  }

  /** `Pass` when a check lets the command go on. */
  datatype Outcome = Pass | Fail(error: Error) {
    predicate IsFailure() { Fail? }

    function PropagateFailure(): Outcome
      requires Fail?
    {
      this
    }
  }

  datatype Error =
    | Exit(reason: ExitReason)       // Logger.error(...) followed by exit(1)
    | Raise(exception: PyException)  // an exception nothing catches

  /** The message chosen before `exit(1)`; the message texts themselves live in a
      constants file that is not part of this model, so each one is a tag here. */
  datatype ExitReason =
    | AlreadyInitialized                    // ALREADY_INITIALIZED_MSG
    | NotInitialized                        // NOT_INITIALIZED_MSG
    | FindingsDirectoryEmpty                // "The findings directory is empty!"
    | InvalidFindingFragment(row: string)   // "Invalid finding fragment: <first row>"
    | FindingIdDashCount                    // "Finding id must contain exactly one '-' character."
    | InvalidFindingIndex(index: string)    // "Finding index '<index>' is invalid."

  datatype PyException =
    | ValueError(input: string)        // enum lookup by value, int() of a non-number
    | IndexError                       // list index out of range
    | KeyError(key: string)            // dict lookup of a missing key
    | FileNotFound(name: string)       // open() of a missing file
    | WrapResultNotAString             // a list from textwrap.wrap used as a string
}
