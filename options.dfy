/** The optional value used where the source yields `null`. */
module Options {
  datatype Option<T> = None | Some(value: T)
}
