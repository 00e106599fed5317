/** Optional values, results and outcomes shared by every module of the model. */
module Wrappers {

  datatype Option<+T> = None | Some(value: T)

  /** A value, or the fault that kept it from being produced; usable with `:-`. */
  datatype Result<+T, +E> = Success(value: T) | Failure(fault: E) {
    predicate IsFailure() {
      Failure?
    }

    function PropagateFailure<U>(): Result<U, E>
      requires Failure?
    {
      Failure(fault)
    }

    function Extract(): T
      requires Success?
    {
      value
    }
  }

  /** What a step that only changes state reports; usable with `:-`. */
  datatype Outcome<+E> = Pass | Fail(fault: E) {
    predicate IsFailure() {
      Fail?
    }

    function PropagateFailure(): Outcome<E>
      requires Fail?
    {
      this
    }

    /** The outcome of a step together with the state it left. */
    function With<S>(state: S): Result<S, E> {
      if Pass? then Success(state) else Failure(fault)
    }
  }
}
