/** Failure-compatible wrappers shared by every stage of the converter. */
module Results {

  datatype Option<+T> = None | Some(value: T)

  /** The ways a conversion stops. In the program each of them ends the process
      (log.Fatal or a runtime panic); here they are values handed back to the caller. */
  datatype Error =
    | MalformedNumber     // strconv rejected a token
    | IndexOutOfRange     // an index or slice expression outside its bounds (a Go panic)
    | InvalidFormat       // an OFF input whose first line does not start with "OFF"
    | UnsupportedFormat   // an input path ending neither in ".obj" nor in ".off"

  datatype Result<+T> = Ok(value: T) | Err(error: Error) {

    predicate IsFailure() {
      Err?
    }

    function PropagateFailure<U>(): Result<U>
      requires Err?
    {
      Err(error)
    }

    function Extract(): T
      requires Ok?
    {
      value
    }
  }
}
