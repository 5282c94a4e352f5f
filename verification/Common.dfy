/** Datatypes shared by the models. */
module Common {

  /** A nullable pointer or an absent result. */
  datatype Option<+T> = None | Some(value: T)
}
