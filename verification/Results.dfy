/** The crate's `Result` and the error kinds the modelled code distinguishes. */
module Results {

  datatype ErrorKind =
    | InvalidInput
    | ResourceExhausted
    | NotTrusted
    | Conflict
    | AuthenticationFailed
    | StorageCorrupt
    | CommitUnknown
    | NotReady
    | Internal
    | Crashed // the process died at this point; nothing after it ran

  datatype Error = Error(kind: ErrorKind, context: string)

  datatype Option<+T> = None | Some(value: T)

  datatype Result<+T> = Ok(value: T) | Err(error: Error) {
    predicate IsFailure() {
      Err?
    }

    function PropagateFailure<U>(): (r: Result<U>)
      requires Err?
    {
      Err(error)
    }

    function Extract(): T
      requires Ok?
    {
      value
    }
  }

  /** What a start answers to stored identity records that contradict each other. */
  const DISCOVERY_CORRUPT := Error(StorageCorrupt, "storage snapshot")

  function InvalidInputError(context: string): Error {
    Error(InvalidInput, context)
  }

  function ExhaustedError(context: string): Error {
    Error(ResourceExhausted, context)
  }
}
