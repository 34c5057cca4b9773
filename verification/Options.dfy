/** The optional value used throughout the model where the kernel returns `Option<T>`. */
module Options {
  datatype Option<+T> = None | Some(value: T)
}
