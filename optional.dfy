/** Python's `None` next to a value: the optional values the model threads around. */
module Optional {

  datatype Option<+T> = None | Some(value: T)
}
