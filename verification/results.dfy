/** Outcome types shared by the codec and the executor.

    The Rust code reports recoverable failures as `Err(String)` and aborts
    with a panic on arithmetic overflow, division by zero and out-of-range
    indexing. `Result` keeps the two apart: `Err` is the value the Rust code
    returns, `Panic` is the abort a debug build of it performs. Both are
    failures for `:-`.
 */
module Results {

  datatype Option<+T> = None | Some(value: T)

  datatype Result<+T> = Ok(value: T) | Err(msg: string) | Panic(msg: string) {

    predicate IsFailure() {
      !Ok?
    }

    function PropagateFailure<U>(): Result<U>
      requires !Ok?
    {
      if Err? then Err(msg) else Panic(msg)
    }

    function Extract(): T
      requires Ok?
    {
      value
    }
  }

  /** Rust's `Option::ok_or(msg)` followed by `?`. */
  function OkOr<T>(o: Option<T>, msg: string): (r: Result<T>)
    ensures r.Ok? <==> o.Some?
    ensures r.Ok? ==> o == Some(r.value)
    ensures !r.Ok? ==> r == Err(msg)
  {
    match o
    case Some(x) => Ok(x)
    case None => Err(msg)
  }
}
