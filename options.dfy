/** The optional value used where the original program has `null`. */
module Options {

  datatype Option<+T> = None | Some(value: T)

}
