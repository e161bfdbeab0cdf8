/**
 * Result and error types shared by the model. The Python code raises
 * exceptions; here every raise becomes a `Failure` carrying the kind of
 * error it was.
 */
module Results {

  datatype Result<+T, +E> = Success(value: T) | Failure(error: E)

  /** The exceptions that can leave the core, by kind. */
  datatype Error =
    | DataAccess(message: string)       // the database driver raised
    | KeyError(key: string)             // a metadata row lacks a column the formatter reads
    | GenerationFailed(message: string) // the language-model call raised
    | UnsafeQuery(message: string)      // the safety gate rejected the candidate (a ValueError)
}
