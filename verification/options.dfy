/** Wrapper datatypes shared by the model: `Option` stands for a
    JavaScript value that may be `null`/`undefined`, `Result` for a handler
    that answers its caller with either success or a refusal. */
module Options {

  datatype Option<+T> = None | Some(value: T)

  datatype Result<+T, +E> = Ok(value: T) | Err(error: E)

  /** JavaScript truthiness of a nullable name: `null` and `""` are falsy. */
  predicate Filled(o: Option<string>) {
    o.Some? && o.value != ""
  }
}
