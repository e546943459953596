/** Small value types shared by every module of the model. */
module Values {

  /** A value that may be absent: `None` stands for JavaScript's `undefined` or `null`. */
  datatype Option<+T> = None | Some(value: T)

  /** The outcome of a foreign call that can fail. */
  datatype Result<+T, +E> = Ok(value: T) | Err(error: E)

  /** JavaScript truthiness of a request field that is absent or a string:
      `undefined`, `null` and the empty string are falsy. */
  predicate Truthy(field: Option<string>)
  {
    field.Some? && field.value != ""
  }
}
