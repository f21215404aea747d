/** Small shared datatypes. */
module Common {

  datatype Option<+T> = None | Some(value: T)

  function Min(a: nat, b: nat): nat {
    if a < b then a else b
  }

  /** How a step of an operation ends: it finishes, it throws, or the process dies in it. */
  datatype Outcome = Done | Threw | Died {

    predicate IsFailure() {
      !Done?
    }

    function PropagateFailure(): Outcome {
      this
    }
  }
}
