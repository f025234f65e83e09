/** Failure-carrying result types shared by every module of the model.
    Go's `(value, error)` pairs become `Result`, a nil-able pointer becomes
    `Option`. A Go `panic`, `log.Fatalf` or `os.Exit(1)` is modelled as an
    `Err` whose message is the text the program prints. */
module Wrappers {

  datatype Option<+T> = None | Some(value: T) {
    function GetOr(default: T): T {
      match this
      case Some(v) => v
      case None => default
    }
  }

  datatype Result<+T> = Ok(value: T) | Err(msg: string) {
    predicate IsFailure() {
      Err?
    }

    function PropagateFailure<U>(): Result<U>
      requires Err?
    {
      Err(msg)
    }

    function Extract(): T
      requires Ok?
    {
      value
    }
  }
}
