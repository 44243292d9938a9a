/** The exceptions the modelled code raises, and the value-or-exception result every throwing member returns. */
module Faults {
  import opened Common

  /**
   One constructor per .NET exception type the core throws, and the failed
   `Debug.Assert` of a debug build (which no handler can catch).
   */
  datatype Fault =
    | PlatformInitializeException(error: Option<string>, message: string)
    | ObjectDisposedException
    | InvalidOperationException(text: string)
    | ArgumentOutOfRangeException(actualValue: int)
    | DuplicateCVarException(cvarName: string)
    | DebugAssertFailure

  /** A member either returns normally or throws. */
  datatype Outcome<T> = Returns(value: T) | Throws(fault: Fault)
}
