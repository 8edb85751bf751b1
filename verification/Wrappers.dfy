/** The two carriers the source expresses with `undefined` and with thrown refusals. */
module Wrappers {

  datatype Option<+T> = None | Some(value: T)

  /** `Refused` stands for an exception whose transaction was rolled back. */
  datatype Result<+T, +R> = Done(value: T) | Refused(reason: R)
}
