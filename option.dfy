/** An optional value, the shape of Rust's `Option`. */
module Options {
  datatype Option<T> = None | Some(value: T)
}
