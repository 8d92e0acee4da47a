/** Small value wrappers shared by the other modules. */
module Wrappers {

  /** Python's `X | None`. */
  datatype Option<+T> = None | Some(value: T)

  /** The `(value, error)` pair that the validation helpers return: by
      convention exactly one side is present. */
  datatype Checked<+T, +E> = Checked(value: Option<T>, error: Option<E>)
  {
    predicate ExactlyOne() { value.Some? != error.Some? }
  }

  function Accept<T, E>(v: T): Checked<T, E>
  {
    Checked(Some(v), None)
  }

  function Reject<T, E>(e: E): Checked<T, E>
  {
    Checked(None, Some(e))
  }

  /** Python truthiness of an optional string: neither None nor "". */
  predicate Present(s: Option<string>) { s.Some? && s.value != "" }
}
