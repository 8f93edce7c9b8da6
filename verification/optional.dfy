/** The optional value used wherever the source yields `undefined`/`null`. */
module Optional {
  datatype Option<+T> = None | Some(value: T)
}
