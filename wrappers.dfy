/** Optional values and the Python exceptions the core lets escape. */
module Wrappers {

  datatype Option<+T> = None | Some(value: T)

  /** The exceptions that reach a caller of the parsers and exporters. */
  datatype PyError =
    | ValueError   // a malformed number or timestamp that is not caught
    | IndexError   // indexing a line that is not there
    | AttributeError  // reading the offsets of a formatting that has none

  datatype Result<+T> = Ok(value: T) | Err(error: PyError)

  /** A success without a value is the one success `Ok(())`. */
  lemma OkUnit(e: Result<()>)
    requires e.Ok?
    ensures e == Ok(())
  {
    match e.value { case () => }
  }
}
