/** Failure-compatible wrappers shared by every module of the model. */
module Wrappers {

  /** An optional value, in place of a Kotlin nullable reference. */
  datatype Option<+T> = None | Some(value: T)

  /** The outcome of an operation that may throw: `Err` carries the exception's message. */
  datatype Result<+T> = Ok(value: T) | Err(error: string) {
    predicate IsFailure() {
      Err?
    }

    function PropagateFailure<U>(): Result<U>
      requires Err?
    {
      Err(error)
    }

    function Extract(): T
      requires Ok?
    {
      value
    }
  }

  /** The first component of a pair, the key of an association list. */
  function Fst<K, V>(p: (K, V)): K {
    p.0
  }
}
