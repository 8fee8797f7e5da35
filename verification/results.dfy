/** The exceptions the dot-code generator can raise, and a failure-compatible
    result type so that `:-` propagates them the way Python propagates an
    exception out of `generate_dotcode`. */
module Results {

  datatype Error =
    /** `re.match` could not compile a filter pattern (`re.error`). */
    | BadPattern(pattern: string)
    /** The graph mode named none of the three known modes, so the local
        `edges` was never assigned (`UnboundLocalError`). */
    | UnboundEdges
    /** `list.remove` was asked for an element that is not there (`ValueError`). */
    | NotInList

  /** An optional argument of the rendering backend (`None` in Python). */
  datatype Option<+T> = None | Some(value: T)

  datatype Result<+T> = Ok(value: T) | Err(error: Error) {

    predicate IsFailure() {
      Err?
    }

    function PropagateFailure<U>(): Result<U>
      requires Err?
    {
      Err(error)
    }

    function Extract(): T
      requires Ok?
    {
      value
    }
  }
}
