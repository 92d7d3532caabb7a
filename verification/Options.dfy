/** A value that may be missing: an SQL NULL, a Go nil or an absent Swift optional. */
module Options {
  datatype Option<+T> = None | Some(value: T)
}
