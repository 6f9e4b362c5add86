/** Rust's `Option`, used for hit records and scatter results. */
module Options {

  datatype Option<T> = None | Some(value: T)
}
