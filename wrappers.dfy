/** Option and Result values, and the two Python exceptions the completion
    source can raise while it builds or filters matches. */
module Wrappers {

  datatype Option<+T> = None | Some(value: T)

  /** The exceptions that escape the source's functions: an `IndexError` when a
      listing record has too few fields, a `KeyError` when a dictionary lookup
      names a key the match does not have. */
  datatype PyError = IndexError | KeyError(key: string)

  datatype Result<+T> = Ok(value: T) | Err(error: PyError)
}
