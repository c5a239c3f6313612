/**
 * Option and Result values shared by the modules of this model.
 * `None` stands for a Java `null`; `Err` stands for an exception the Java
 * code throws (its kind is recorded in an `Error`).
 */
module Wrappers {

  datatype Option<T> = None | Some(value: T)
  {
    predicate IsSome() { Some? }

    function GetOr(default: T): (r: T)
      ensures Some? ==> r == value
      ensures None? ==> r == default
    {
      match this
      case Some(v) => v
      case None => default
    }
  }

  /** The kinds of exception the modelled Java code raises. */
  datatype Error =
    | NullPointer
    | IllegalArgument(message: string)
    | IO(message: string)
    | IndexOutOfBounds
    | NoSuchElement
    | Runtime(message: string)
    | InvalidOption(message: string)
    | Fatal(message: string)
    | ClassNotFound(className: string)

  datatype Result<T> = Ok(value: T) | Err(error: Error)
  {
    predicate IsFailure() { Err? }
  }
}
