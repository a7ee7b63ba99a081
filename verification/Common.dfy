/** Small shared types. */
module Common {

  datatype Option<+T> = None | Some(value: T)

  /** What one storage write, or a whole call, came to. `Died` is the isolate stopping: nothing after it
      runs. `Failed` is a thrown error, which a `catch` in the caller still sees. */
  datatype Outcome<+T> = Done(value: T) | Failed(reason: string) | Died {
    predicate IsFailure() {
      !Done?
    }

    function PropagateFailure<U>(): Outcome<U>
      requires !Done?
    {
      match this
      case Failed(reason) => Failed(reason)
      case Died => Died
    }

    function Extract(): T
      requires Done?
    {
      value
    }
  }
}
