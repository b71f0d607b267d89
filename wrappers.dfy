/** Absent values and collaborator replies shared by every service model. */
module Wrappers {

  /** A Java reference that may be null. */
  datatype Option<T> = None | Some(value: T)

  /** What a call into a collaborator (a remote client, a repository, the
      message broker) produces: a value, or an exception with its message. */
  datatype Reply<T> = Value(value: T) | Thrown(message: string)

  /** How a service method ends: it returns a value or lets an exception
      propagate to its caller. */
  datatype Outcome<T> = Returned(value: T) | Raised(message: string)

  /** Stands for the JDK's text of a NullPointerException. */
  const NullDereference := "NullPointerException"
}
