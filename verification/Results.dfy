/** Outcomes shared by the ink-format model: `crate::Result` with the error classes of `error.rs`.
    The human-readable message of an error is not modelled. */
module Results {
  datatype Error =
    | InvalidData
    | Unsupported(code: nat)
    | ResourceLimit
    | CborError
    | Compression

  datatype Result<+T> = Ok(value: T) | Err(error: Error) {
    predicate IsFailure() { Err? }

    function PropagateFailure<U>(): Result<U>
      requires Err?
    {
      Err(error)
    }

    function Extract(): T
      requires Ok?
    {
      value
    }
  }

  datatype Option<+T> = None | Some(value: T)

  datatype Check = Pass | Fail(error: Error) {
    predicate IsFailure() { Fail? }

    function PropagateFailure<U>(): Result<U>
      requires Fail?
    {
      Err(error)
    }
  }

  /** `ensure` of lib.rs: a false condition is malformed data. */
  function Ensure(condition: bool): Check {
    if condition then Pass else Fail(InvalidData)
  }
}
