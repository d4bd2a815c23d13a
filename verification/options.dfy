/** An optional value: `None` stands for Python's `None` result or for an
    input Python would reject with an exception. */
module Options {
  datatype Option<T> = None | Some(value: T)
}
