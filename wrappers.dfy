/** Option and Result values shared by the whole model. A Result's error is the
    exception the generator's own code raises at that point: the host turns any
    such exception into a failed generator run, so it is an outcome of its own. */
module Wrappers {

  datatype Option<+T> = None | Some(value: T)

  /** The exceptions the generator's code can raise on some input. */
  datatype Fault =
    | DuplicateKey      // Dictionary.Add on a key that is already present
    | IndexOutOfRange   // an index past the end of an array, a list or a parameter list
    | InvalidCast       // a syntax node cast to a kind it does not have
    | NullReference     // a null-forgiving dereference of a node that is missing
    | NotListElement    // nodes inserted before a node that is not an element of a list

  datatype Result<+T> = Ok(value: T) | Err(fault: Fault) {
    predicate IsFailure() { Err? }

    function PropagateFailure<U>(): Result<U>
      requires Err?
    {
      Err(fault)
    }

    function Extract(): T
      requires Ok?
    {
      value
    }
  }
}
