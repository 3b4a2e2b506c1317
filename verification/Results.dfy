/** Bytes, optional values and the outcomes of operations that can fail. */
module Results {

  datatype Option<+T> = None | Some(value: T) {
    predicate IsFailure() { None? }

    function PropagateFailure<U>(): Option<U>
      requires None?
    {
      None
    }

    function Extract(): T
      requires Some?
    {
      value
    }
  }

  type Byte = b: nat | b < 256

  datatype Result<+T, +E> = Ok(value: T) | Err(error: E)

  /** The kinds of error the file stores report; messages are not modelled. */
  datatype StoreError = InvalidArgument | NotFound | AlreadyExists | FailedPrecondition | Internal

  type StoreResult<+T> = Result<T, StoreError>
}
