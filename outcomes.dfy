/** Values shared by every module: byte strings, optional values, and the
    outcome of a call into code the model does not see (it returned a value
    or it threw). */
module Outcomes {

  type Bytes = seq<bv8>

  /** Kotlin's nullable types: `null` is None. */
  datatype Option<+T> = None | Some(value: T) {
    function GetOr(default: T): T {
      match this
      case Some(v) => v
      case None => default
    }
  }

  /** The exception classes the model distinguishes; the reply logic only
      tells IOException (and its subclasses) apart from the rest. */
  datatype ExceptionKind =
    | IOException
    | IllegalArgumentException
    | NullPointerException
    | NegativeArraySizeException
    | GeneralSecurityException
    | OtherException

  datatype Exception = Exception(kind: ExceptionKind, message: Option<string>)

  /** What a call into a library did: returned a value or threw. */
  datatype Outcome<+T> = Returned(value: T) | Threw(exception: Exception)
}
