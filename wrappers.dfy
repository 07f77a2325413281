/** Option and the panic-aware outcome shared by every module of the model. */
module Wrappers {

  /** Rust's `Option`. */
  datatype Option<+T> = None | Some(value: T)

  /**
   * The result of an operation that can abort the whole process.
   * `Panic` stands for a Rust `panic!`, an `unwrap` of `None` or an
   * out-of-range slice; it is distinct from every ordinary result,
   * including `Ok(None)` and `Ok(Some([]))`.
   */
  datatype Outcome<+T> = Ok(value: T) | Panic
}
