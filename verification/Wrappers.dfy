/** The optional value used for Java's nullable references and for partial results. */
module Wrappers {

  datatype Option<+T> = None | Some(value: T) {

    predicate IsFailure()
    {
      None?
    }

    function PropagateFailure<U>(): Option<U>
      requires None?
    {
      None
    }

    function Extract(): T
      requires Some?
    {
      value
    }
  }
}
