/** Optional values and success-or-error results, used in place of Java's
    `Optional` and of exceptions that signal domain failures. */
module Wrappers {

  datatype Option<T> = None | Some(value: T)

  datatype Result<T, E> = Ok(value: T) | Err(error: E)
}
