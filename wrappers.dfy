/** Option and Outcome: the shapes used for Java's `null` returns and thrown exceptions. */
module Wrappers {

  /** A value that may be absent; `None` stands for a Java `null` reference. */
  datatype Option<+T> = None | Some(value: T)

  /** The result of a `void` operation that may throw: `Pass`, or `Fail` with the exception. */
  datatype Outcome<+E> = Pass | Fail(error: E)
}
