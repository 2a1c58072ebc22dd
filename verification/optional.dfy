/** The optional value used wherever the source has `null`/`undefined` or an
    operation that may produce nothing. */
module Optional {

  datatype Option<+T> = None | Some(value: T)
}
