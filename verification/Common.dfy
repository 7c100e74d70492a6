/** What every module shares: failure-carrying datatypes, the unit of time, text that counts as given. */
module Common {

  datatype Option<+T> = None | Some(value: T)

  datatype Result<+T, +E> = Ok(value: T) | Err(error: E)

  /** Milliseconds in a second. */
  const MILLIS := 1000

  /** Neither absent nor empty. */
  predicate NonEmpty(text: Option<string>) {
    text.Some? && text.value != ""
  }
}
