/** Result types shared by the models of the Rust, Go and JavaScript code. */
module Wrappers {

  datatype Option<+T> = None | Some(value: T)

  /** A call that either returns a value or reports an error to its caller. */
  datatype Result<+T> = Ok(value: T) | Err {

    predicate IsFailure() {
      Err?
    }

    function PropagateFailure<U>(): Result<U>
      requires Err?
    {
      Err
    }

    function Extract(): T
      requires Ok?
    {
      value
    }
  }

  /**
   * What a Rust function can do: return `Ok`, return `Err`, or panic.  It panics when a slice lies
   * outside its buffer and, in a build with overflow checks, when a `usize` sum overflows.
   */
  datatype Outcome<+T> = Done(value: T) | Failed | OutOfRange | Overflowed {

    predicate Panicked() {
      OutOfRange? || Overflowed?
    }

    predicate IsFailure() {
      !Done?
    }

    function PropagateFailure<U>(): Outcome<U>
      requires !Done?
    {
      if Failed? then Failed else if OutOfRange? then OutOfRange else Overflowed
    }

    function Extract(): T
      requires Done?
    {
      value
    }
  }
}
