/** Option and Result, the failure-carrying values the model returns in place of
    Python's None and its exceptions. */
module Wrappers {

  datatype Option<+T> = None | Some(value: T)

  datatype Result<+T, +E> = Success(value: T) | Failure(error: E)
}

/** The exceptions add_source.py lets escape, one constructor per cause. */
module Errors {

  datatype Error =
    | KeyError(key: string)          // a dict or config-section lookup of a missing key
    | MissingElement(tag: string)    // `find(tag)` gave None and an attribute of it was used
    | InvalidLiteral(literal: string) // `int()` of a string that is not an integer literal
    | EmptySequence                  // `max()` of an empty sequence
    | NoSuchTable                    // the `path` table (or the database file) is absent
}
