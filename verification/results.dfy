/** Failure-compatible result types shared by both contracts; `Result` mirrors
    Rust's `Result<T, E>` and a guard returns `Result<(), E>`. */
module Results {

  datatype Option<+T> = None | Some(value: T)

  datatype Result<+T, +E> = Ok(value: T) | Err(error: E) {

    predicate IsFailure() {
      Err?
    }

    function PropagateFailure<U>(): Result<U, E>
      requires Err?
    {
      Err(error)
    }

    function Extract(): T
      requires Ok?
    {
      value
    }
  }

  /** `ensure!(cond, err)`: passes when `cond` holds, otherwise fails with `err`. */
  function Ensure<E>(cond: bool, err: E): (r: Result<(), E>)
    ensures r.Ok? <==> cond
    ensures r.Err? ==> r.error == err
  {
    if cond then Ok(()) else Err(err)
  }
}
