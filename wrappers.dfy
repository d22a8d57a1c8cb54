/** Option and Result: the model's stand-ins for C# null and for thrown exceptions. */
module Wrappers {

  /** A value that may be absent; `None` stands for a C# `null`. */
  datatype Option<T> = None | Some(value: T)

  /** The outcome of an operation that may throw; `Failure` carries the exception message. */
  datatype Result<T, E> = Success(value: T) | Failure(error: E)
}
