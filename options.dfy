/** An optional value: `None` stands for a Java `null` reference or a failed lookup. */
module Options {
  datatype Option<T> = None | Some(value: T)
}
