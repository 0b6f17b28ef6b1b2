/** The optional value used wherever the source tests `isset` or compares with NULL. */
module Options {

  datatype Option<T> = None | Some(value: T)
}
