/** Option and Result: the value-or-absence and value-or-exception wrappers used throughout. */
module Wrappers {

  datatype Option<+T> = None | Some(value: T)

  /** Either a value or the exception that the Python code would raise instead. */
  datatype Result<+T, +E> = Ok(value: T) | Err(error: E)
}

/** The exceptions that the versioner can raise or let escape. */
module PyErrors {

  /** Why a `VersionerError` was raised. */
  datatype Reason =
    | TooManyContainers                 // a Deployment lists more than one container template
    | ContainerIndexError               // the IndexError of an empty container list, re-raised
    | InvalidImageFormat(image: string) // the image does not split into exactly `name:tag`
    | FetchFailed(path: string)         // the file could not be fetched from the repository

  /**
   * `VersionerError` is the program's own error, which `main` reports with exit status 1.
   * The others are Python built-in exceptions that nothing in the program catches
   * (IndexError is caught and re-raised as a VersionerError around the container lookup).
   */
  datatype Exception =
    | VersionerError(reason: Reason)
    | KeyError
    | IndexError
    | TypeError
    | AttributeError
}
