/** The `Option` type Rust's standard library provides, used by the accessors and
    the escape decoder. */
module Optional {

  datatype Option<+T> = None | Some(value: T)
}
