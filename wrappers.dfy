/** Option and Result values, and Python's notion of a "falsy" optional field. */
module Wrappers {

  /** An optional value: `None` stands for Python's `None`. */
  datatype Option<+T> = None | Some(value: T)

  /** The outcome of a Python call: a value, or the exception it raises. */
  datatype Result<+T, +E> = Success(value: T) | Failure(error: E)

  /** An optional integer is falsy in Python when it is `None` or `0`. */
  predicate FalsyNat(o: Option<nat>)
  {
    o.None? || o.value == 0
  }

  /** An optional string is falsy in Python when it is `None` or `""`. */
  predicate FalsyText(o: Option<string>)
  {
    o.None? || o.value == ""
  }
}
