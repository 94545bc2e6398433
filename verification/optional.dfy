/** The Some/None datatype used wherever a Go value may be nil. */
module Optional {

  datatype Option<+T> = None | Some(value: T)
}
