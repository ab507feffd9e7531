/** Optional values (JavaScript's `undefined`) and the outcome of a call that may throw. */
module Results {

  datatype Option<+T> = None | Some(value: T)

  /** The two things a denizen method can throw. */
  datatype Error =
    | NotImplemented   // the base class's `throw "not implemented"`
    | TypeError        // a Seed ticked without a velocity: `undefined.scale(...)`

  datatype Outcome = Pass | Fail(error: Error)
}
