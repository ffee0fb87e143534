/** The optional value used wherever the source reads a nullable or absent value. */
module Options {

  datatype Option<+T> = None | Some(value: T)
}
