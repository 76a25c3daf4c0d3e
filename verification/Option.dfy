/** The usual optional value: Go's nil pointers and comma-ok results. */
module Option {
  datatype Option<+T> = None | Some(value: T)
}
