/** An optional value: a header, a body field or a search hit that may be
    absent. */
module Options {
  datatype Option<T> = None | Some(value: T)
}
