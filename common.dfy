/** Small value types shared by every module of the model. */
module Common {

  /** A value that may be absent: `undefined` in the source, or a missing field. */
  datatype Option<T> = None | Some(value: T)

  /** The outcome of a validation: the accepted (possibly transformed) value, or the issues found. */
  datatype Parsed<T, E> = Accepted(value: T) | Rejected(issues: seq<E>)

  /** A form field that must be filled in: its message when empty, no error otherwise. */
  function RequiredError(v: string, message: string): (e: Option<string>)
    ensures e.None? <==> v != ""
    ensures e.Some? ==> e.value == message
  {
    if v == "" then Some(message) else None
  }
}
