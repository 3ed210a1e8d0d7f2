/** A value that may be absent. */
module Wrappers {
  datatype Option<+T> = None | Some(value: T)

  /** The text is neither absent nor empty. */
  predicate Given(text: Option<string>)
  {
    text.Some? && |text.value| > 0
  }
}
