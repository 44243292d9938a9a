/** `PlatformInitializeException` and its `ThrowIfFailed` guard. */
module PlatformInitialize {
  import opened Common
  import opened Faults

  /** C# string interpolation renders a null string as the empty string. */
  function Interpolate(s: Option<string>): string {
    s.OrElse("")
  }

  /**
   The internal constructor: `Error` keeps the error string (possibly null) and the
   message is `$"{error} ({conditionString})"`.
   */
  function NewException(conditionString: Option<string>, error: Option<string>): (f: Fault)
    ensures f.PlatformInitializeException? && f.error == error
    ensures var e := Interpolate(error); var c := Interpolate(conditionString);
      && |f.message| == |e| + |c| + 3
      && f.message[..|e|] == e
      && f.message[|e|..|e| + 2] == " ("
      && f.message[|e| + 2..|e| + 2 + |c|] == c
      && f.message[|f.message| - 1] == ')'
  {
    var m := Interpolate(error) + " (" + Interpolate(conditionString) + ")";
    PlatformInitializeException(error, m)
  }

  /**
   `ThrowIfFailed(condition, error, message)`: returns when `condition` holds,
   otherwise throws an exception carrying `error`. `conditionText` is the caller's
   argument expression that `[CallerArgumentExpression]` captures.
   */
  function ThrowIfFailed(condition: bool, error: Option<string>, conditionText: Option<string>): (r: Outcome<()>)
    ensures r.Returns? <==> condition
    ensures r.Throws? ==> r.fault == NewException(conditionText, error) && r.fault.error == error
  {
    if !condition then Throws(NewException(conditionText, error)) else Returns(())
  }

  /** A null error is carried through unchanged: the exception's `Error` may be null. */
  lemma NullErrorIsKept(conditionText: Option<string>)
    ensures ThrowIfFailed(false, None, conditionText).fault.error == None
    ensures ThrowIfFailed(false, None, conditionText).fault.message[..2] == " ("
  {
  }
}
