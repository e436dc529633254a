/** Optional values, results of operations that can be refused, and the identifiers
    every table is keyed by. */
module Options {

  /** A UUID. Identifiers are only ever compared, so a number stands for one. */
  type Id = nat

  datatype Option<+T> = None | Some(value: T)

  /** The exceptions the services throw. */
  datatype Error = NotFound | Forbidden | BadRequest | Unauthorized | UniqueViolation

  datatype Result<+T> = Ok(value: T) | Err(error: Error) {
    predicate IsFailure() {
      Err?
    }

    function PropagateFailure<U>(): Result<U>
      requires Err?
    {
      Err(error)
    }

    function Extract(): T
      requires Ok?
    {
      value
    }
  }

  function Need(condition: bool, error: Error): Result<()> {
    if condition then Ok(()) else Err(error)
  }

  function Max(a: int, b: int): int {
    if a < b then b else a
  }
}
