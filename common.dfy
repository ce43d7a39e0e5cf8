/**
 * Value wrappers shared by the whole model: `Option` stands for a Java
 * reference that may be null (or a `java.util.Optional`), `Result` for a
 * call that either returns a value or throws one of the application's
 * exceptions.
 */
module Common {

  datatype Option<+T> = None | Some(value: T)

  datatype Result<+T, +E> = Success(value: T) | Failure(error: E)
}
