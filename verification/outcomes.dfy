/** Optional values and the exceptions the modelled JavaScript code can raise.

    `Option` stands for a property that may be `undefined`; `Outcome` for a
    computation that either returns or throws.  `Outcome` is failure-compatible,
    so `var x :- e;` propagates a thrown error exactly as an uncaught JavaScript
    exception would.
 */
module Outcomes {

  datatype Option<+T> = None | Some(value: T) {

    /** JavaScript's `a ?? b` where `b` is always defined. */
    function Otherwise(fallback: T): T {
      match this
      case Some(v) => v
      case None => fallback
    }

    /** JavaScript's `a ?? b` where `b` may itself be undefined. */
    function OrElse(fallback: Option<T>): Option<T> {
      match this
      case Some(_) => this
      case None => fallback
    }
  }

  /** The exceptions that can escape from the modelled code. */
  datatype JsError =
    | UnsupportedMerge          // `new Error("Unsupported merge")` from `Merge.create`
    | TypeError(reason: string) // a property read on `undefined`

  datatype Outcome<+T> = Ok(value: T) | Thrown(error: JsError) {

    predicate IsFailure() {
      Thrown?
    }

    function PropagateFailure<U>(): Outcome<U>
      requires Thrown?
    {
      Thrown(error)
    }

    function Extract(): T
      requires Ok?
    {
      value
    }
  }
}
