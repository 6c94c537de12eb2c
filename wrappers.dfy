/** Optional values: JavaScript's `null`/`undefined` for a field or a reference slot. */
module Wrappers {

  datatype Option<+T> = None | Some(value: T)

  /** A success value or the message of the error that JavaScript would throw. */
  datatype Result<+T> = Ok(value: T) | Err(message: string)

  /** JavaScript truthiness of an optional string: set and not empty. */
  predicate Truthy(v: Option<string>) {
    v.Some? && |v.value| > 0
  }
}
