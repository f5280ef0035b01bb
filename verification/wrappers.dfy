/** A value that a parse either produced or did not. */
module Wrappers {

  datatype Option<+T> = None | Some(value: T) {

    /** A missing value stops a chain of `:-` steps. */
    predicate IsFailure() {
      None?
    }

    /** Re-types a missing value for the enclosing function's result. */
    function PropagateFailure<U>(): Option<U>
      requires None?
    {
      None
    }

    /** The value a successful `:-` step binds. */
    function Extract(): T
      requires Some?
    {
      value
    }
  }
}
