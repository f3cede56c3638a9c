/** Option and Result, the two wrappers the importer model uses for absent
    values (`tag.string` being None) and for Python exceptions (KeyError). */
module Wrappers {

  /** A value that may be absent, like Python's `None`. */
  datatype Option<+T> = None | Some(value: T)

  /** Either a value or the error that aborted the computation. */
  datatype Result<+R, +E> = Success(value: R) | Failure(error: E)
}
