/** Failure-carrying result types shared by the other modules. */
module Wrappers {

  datatype Option<+T> = None | Some(value: T)

  /** The one error this core reports on its own: a missing archive entry. */
  datatype Error = EntryNotFound(name: string)

  datatype Result<+T> = Success(value: T) | Failure(error: Error)
}
