/** The optional value used throughout: `None` stands for a null pointer, or for an aborted run where noted. */
module Options {
  datatype Option<+T> = None | Some(value: T)
}
