/** Failure-carrying values shared by the exercises: Go's nil and its panics. */
module Wrappers {

  /** A value that may be absent: Go's nil slice, nil error or missing entry. */
  datatype Option<+T> = None | Some(value: T)

  /** The outcome of a Go call that either returns normally or panics with a message. */
  datatype Result<+T> = Ok(value: T) | Panic(message: string)
}
