/** Optional values and success-or-failure results. They stand in for Java's
    `Optional<T>` and for the `RuntimeException`s the services throw. */
module Outcomes {

  datatype Option<+T> = None | Some(value: T)

  datatype Result<+T, +E> = Ok(value: T) | Err(error: E)
}
