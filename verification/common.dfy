/** Shared vocabulary: the C# nullable reference. */
module Common {

  /** A nullable reference: `None` plays the part of `null`. */
  datatype Option<T> = None | Some(value: T) {

    /** The C# null-coalescing operator `this ?? fallback`. */
    function OrElse(fallback: T): T {
      match this
      case Some(v) => v
      case None => fallback
    }
  }
}
