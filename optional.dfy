/** The Option datatype, standing for Python's None and JavaScript's null/undefined. */
module Optional {

  datatype Option<+T> = None | Some(value: T)

}
