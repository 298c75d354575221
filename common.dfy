/** Value wrappers and the error tags shared by the store and the query engine. */
module Common {

  /** Rust's `Option<T>`: a column entry is `None` until a component is stored there. */
  datatype Option<T> = None | Some(value: T)

  /** The variant tags of the store's error type (their message strings are not modelled).
      `ComponetNotRegister` keeps the source's own spelling. */
  datatype Error = ComponentNotFound | ComponetNotRegister | EntityDoesNotExist

  /** `Result<()>` and `Result<&mut Self>`: the handle returned on success is the receiver itself,
      so only success or the error tag is kept. */
  datatype Outcome = Ok | Err(error: Error)
}
