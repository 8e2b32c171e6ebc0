/** The optional value used for every operation of the model that can fail. */
module Wrappers {

  /** `None` stands for a Python exception or error return, `Some` for a value. */
  datatype Option<+T> = None | Some(value: T) {

    predicate IsFailure() {
      None?
    }

    function PropagateFailure<U>(): Option<U>
      requires None?
    {
      None
    }

    function Extract(): T
      requires Some?
    {
      value
    }
  }
}
