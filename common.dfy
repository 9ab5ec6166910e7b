/** Values shared by every module of the model. */
module Common {

  /** A nullable value: a SQL NULL column, or a Python `None`. */
  datatype Option<T> = None | Some(value: T)
}
