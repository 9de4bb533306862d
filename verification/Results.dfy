/** Outcomes of operations that the TypeScript code ends by returning or by throwing. */
module Results {
  datatype Option<+T> = None | Some(value: T)

  datatype Result<+T, +E> = Success(value: T) | Failure(error: E) {
    predicate IsFailure() {
      Failure?
    }

    function PropagateFailure<U>(): Result<U, E>
      requires Failure?
    {
      Failure(error)
    }

    function Extract(): T
      requires Success?
    {
      value
    }
  }

  /** The text in all the pieces. */
  function Flatten(buffers: seq<string>): string {
    if buffers == [] then "" else buffers[0] + Flatten(buffers[1..])
  }
}
