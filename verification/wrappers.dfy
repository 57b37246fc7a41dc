/**
 Failure-carrying results shared by every module of the solver model.
 The C++ code reports errors by throwing `quicky_logic_exception`; here every
 throwing operation returns a `Result` whose `Err` case names what went wrong.
 */
module Wrappers {

  /** The three coloured digits of a candidate, used to name a range error. */
  datatype Component = BlueTriangle | YellowSquare | PurpleCircle

  /** What a thrown exception carries, reduced to the information with meaning. */
  datatype Error =
    | OutOfRange(component: Component, value: nat)  // candidate digit outside [1,5]
    | NoChecker(id: nat)                            // lookup of an unregistered checker id
    | BadIndex(index: nat)                          // signature slot index past the end
    | InputExhausted                                // the id input ran out during selection

  datatype Option<+T> = None | Some(value: T)

  datatype Result<+T> = Ok(value: T) | Err(error: Error) {
    predicate IsFailure() {
      Err?
    }

    function PropagateFailure<U>(): Result<U>
      requires Err?
    {
      Err(error)
    }

    function Extract(): T
      requires Ok?
    {
      value
    }
  }
}
