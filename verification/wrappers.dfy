/** Failure-compatible wrappers used throughout the model. */
module Wrappers {

  /** An optional value: Rust's `Option`, TypeScript's `T | null`. */
  datatype Option<+T> = None | Some(value: T)

  /** Why an operation did not return normally. */
  datatype Failure =
    | Error(msg: string)   // an `Err` returned to the caller (`anyhow::Error`, `Err(())`)
    | Panic(msg: string)   // a Rust `panic!`, `unwrap` or `expect` on the failing side

  /** Rust's `Result<T, E>` with the failure kinds above. */
  datatype Result<+T> = Ok(value: T) | Err(failure: Failure) {
    predicate IsFailure() { Err? }
    function PropagateFailure<U>(): Result<U>
      requires Err?
    {
      Err(failure)
    }
    function Extract(): T
      requires Ok?
    {
      value
    }
  }
}
